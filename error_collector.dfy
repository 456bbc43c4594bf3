/** The per-folder error collector of the cleanup job, a
    `defaultdict(list)` from folder to error messages (main.py, lines 95 and
    134), and the guard that decides whether it is reported (line 143). */
module ErrorCollector {

  /** `lists` maps each folder path to its messages; `order` lists the keys
      in the order they were inserted, which is the order in which the report
      walks `error_collector_per_folder.items()`. */
  datatype Collector = Collector(order: seq<string>, lists: map<string, seq<string>>)

  /** The collector before any folder is processed. */
  const Empty: Collector := Collector([], map[])

  /** The shape every collector built by appending has: the insertion order
      lists each key exactly once, and no list is empty (a key is only
      created by `error_collector_per_folder[folder].append(err)`). */
  ghost predicate Valid(c: Collector)
  {
    && (forall i, j :: 0 <= i < j < |c.order| ==> c.order[i] != c.order[j])
    && (forall k :: k in c.lists <==> k in c.order)
    && (forall k :: k in c.lists ==> c.lists[k] != [])
  }

  /** `error_collector_per_folder[key].append(msg)`: a missing key is created
      with an empty list first. */
  function Append(c: Collector, key: string, msg: string): Collector
  {
    if key in c.lists then Collector(c.order, c.lists[key := c.lists[key] + [msg]])
    else Collector(c.order + [key], c.lists[key := [msg]])
  }

  /** Appending `msgs` under `key`, one message after the other. */
  function Extend(c: Collector, key: string, msgs: seq<string>): Collector
  {
    if msgs == [] then c
    else Append(Extend(c, key, msgs[..|msgs| - 1]), key, msgs[|msgs| - 1])
  }

  /** `any(error_collector_per_folder.values())`: some list is non-empty. */
  predicate HasErrors(c: Collector)
  {
    exists k :: k in c.lists && c.lists[k] != []
  }

  /** Appending keeps the collector's shape, adds exactly the new message at
      the end of its key's list and changes no other key. */
  lemma AppendValid(c: Collector, key: string, msg: string)
    requires Valid(c)
    ensures Valid(Append(c, key, msg))
    ensures key in Append(c, key, msg).lists
    ensures Append(c, key, msg).lists[key] == (if key in c.lists then c.lists[key] else []) + [msg]
    ensures forall k :: k != key ==> (k in Append(c, key, msg).lists <==> k in c.lists)
    ensures forall k :: k != key && k in c.lists ==> Append(c, key, msg).lists[k] == c.lists[k]
  {
  }

  /** Appending several messages one at a time appends them as a block:
      nothing happens for no message, otherwise the key is created if need be
      and the messages are added at the end of its list, in order. */
  lemma {:induction false} ExtendAppendsBlock(c: Collector, key: string, msgs: seq<string>)
    ensures Extend(c, key, msgs) ==
              if msgs == [] then c
              else if key in c.lists then Collector(c.order, c.lists[key := c.lists[key] + msgs])
              else Collector(c.order + [key], c.lists[key := msgs])
  {
    if msgs != [] {
      var n := |msgs| - 1;
      ExtendAppendsBlock(c, key, msgs[..n]);
      assert msgs == msgs[..n] + [msgs[n]];
      if key in c.lists {
        assert c.lists[key] + msgs[..n] + [msgs[n]] == c.lists[key] + msgs;
      }
    }
  }

  /** Extending keeps the collector's shape. */
  lemma ExtendValid(c: Collector, key: string, msgs: seq<string>)
    requires Valid(c)
    ensures Valid(Extend(c, key, msgs))
  {
    ExtendAppendsBlock(c, key, msgs);
  }

  /** On a collector of the right shape the report guard holds iff some
      folder has been entered at all. */
  lemma HasErrorsIffSomeKey(c: Collector)
    requires Valid(c)
    ensures HasErrors(c) <==> c.order != []
  {
    if c.order != [] {
      assert c.order[0] in c.lists;
    }
  }
}
