/** The cleanup run of `main()` (main.py, lines 76-150): select the folders,
    then, folder by folder, select the old project files and hand each to the
    host application, recording one message per failed file under its folder;
    at the end report the collected errors once, if there are any.

    The directory listings, the clock and the host application are the
    parameter `scan`: for each folder name it gives the clock reading taken
    for that folder, the folder's project files and what the host does with
    each of them. */
module Cleanup {
  import Seqs
  import opened FolderSelection
  import opened AtosFiles
  import opened ErrorCollector

  /** `ROOT`, the directory whose sub-folders are scanned. */
  const Root: string := "C:\\Result\\alex_test_cleanup"

  /** `str(folder)` for the folder `name` found under the root, in Windows
      path syntax. */
  function FolderPath(name: string): string
  {
    Root + "\\" + name
  }

  /** The fixed start of every message recorded for the folder at `path`. */
  function ErrorPrefix(path: string): string
  {
    "Error in cleanup job of `" + path + "`: "
  }

  /** `err` (line 133): the prefix naming the folder, the exception's text, a
      line break and the formatted stack trace. */
  function ErrorMessage(path: string, description: string, trace: string): (msg: string)
    ensures ErrorPrefix(path) <= msg
    ensures msg[|ErrorPrefix(path)|..] == description + "\n" + trace
  {
    ErrorPrefix(path) + description + "\n" + trace
  }

  predicate IsFailed(f: AtosFile)
  {
    f.outcome.Failed?
  }

  /** The messages recorded while processing `files` of the folder at `path`:
      one per failed file, in processing order. */
  function FailureMessages(path: string, files: seq<AtosFile>): (msgs: seq<string>)
    ensures |msgs| <= |files|
    ensures forall k :: 0 <= k < |msgs| ==> ErrorPrefix(path) <= msgs[k]
  {
    var failed := Seqs.Filter(files, IsFailed);
    seq(|failed|, k requires 0 <= k < |failed| =>
      ErrorMessage(path, failed[k].outcome.description, failed[k].outcome.trace))
  }

  /** The messages recorded while processing the folder `name`: its old
      files are processed, the others are skipped. */
  function FolderMessages(name: string, contents: FolderContents): seq<string>
  {
    FailureMessages(FolderPath(name), SelectOldFiles(contents.atosFiles, contents.now))
  }

  /** The collector after processing `folders` in order. */
  function Collect(folders: seq<string>, scan: string -> FolderContents): Collector
  {
    if folders == [] then Empty
    else
      var n := |folders| - 1;
      Extend(Collect(folders[..n], scan), FolderPath(folders[n]), FolderMessages(folders[n], scan(folders[n])))
  }

  /** Reference definition of one folder's list: every message recorded while
      processing a folder with path `key`, in processing order. */
  function MessagesFor(folders: seq<string>, scan: string -> FolderContents, key: string): seq<string>
  {
    if folders == [] then []
    else
      var n := |folders| - 1;
      MessagesFor(folders[..n], scan, key) +
        (if FolderPath(folders[n]) == key then FolderMessages(folders[n], scan(folders[n])) else [])
  }

  /** Some processed file of `folders` is old and failed. */
  ghost predicate SomeFileFailed(folders: seq<string>, scan: string -> FolderContents)
  {
    exists i, f :: 0 <= i < |folders| && f in scan(folders[i]).atosFiles &&
      IsOld(scan(folders[i]).now, f.mtime) && IsFailed(f)
  }

  /** The job: the folder comprehension, then one pass over the selected
      folders, then the report guard. Returns the final collector and whether
      the error popup is shown. */
  method RunCleanup(entries: seq<string>, scan: string -> FolderContents)
    returns (collector: Collector, reported: bool)
    ensures collector == Collect(SelectFolders(entries), scan)
    ensures Valid(collector)
    ensures reported <==> HasErrors(collector)
    ensures reported <==> SomeFileFailed(SelectFolders(entries), scan)
  {
    var folders := SelectFolders(entries);
    collector := Empty;
    for i := 0 to |folders|
      invariant collector == Collect(folders[..i], scan)
    {
      var folder := folders[i];
      var contents := scan(folder);
      var oldFiles := SelectOldFiles(contents.atosFiles, contents.now);
      collector := ProcessFolder(collector, FolderPath(folder), oldFiles);
      CollectSnoc(folders, scan, i);
    }
    assert folders[..|folders|] == folders;
    reported := HasErrors(collector);
    ReportIffSomeFileFailed(folders, scan);
  }

  /** The inner loop over the old files of the folder at `path`: each file
      goes to the host application; a failure appends one message to the
      folder's list (creating the list first if need be). */
  method ProcessFolder(c: Collector, path: string, oldFiles: seq<AtosFile>) returns (c': Collector)
    ensures c' == Extend(c, path, FailureMessages(path, oldFiles))
  {
    c' := c;
    for j := 0 to |oldFiles|
      invariant c' == Extend(c, path, FailureMessages(path, oldFiles[..j]))
    {
      var file := oldFiles[j];
      RecordStep(c, path, oldFiles, j);
      match file.outcome {
        case Failed(description, trace) =>
          var err := ErrorMessage(path, description, trace);
          if path in c'.lists {
            c' := Collector(c'.order, c'.lists[path := c'.lists[path] + [err]]);
          } else {
            c' := Collector(c'.order + [path], c'.lists[path := [err]]);
          }
        case Cleaned =>
      }
      // Closing the project only logs: it records nothing and lets the next
      // file be processed.
    }
    assert oldFiles[..|oldFiles|] == oldFiles;
  }

  /** The collector after one more folder. */
  lemma CollectSnoc(folders: seq<string>, scan: string -> FolderContents, i: int)
    requires 0 <= i < |folders|
    ensures Collect(folders[..i + 1], scan) ==
              Extend(Collect(folders[..i], scan), FolderPath(folders[i]),
                     FailureMessages(FolderPath(folders[i]), SelectOldFiles(scan(folders[i]).atosFiles, scan(folders[i]).now)))
  {
    assert folders[..i + 1][..i] == folders[..i];
  }

  /** The collector after the (j+1)-th file of a folder: the one after the
      j-th, with the file's message appended if it failed. */
  lemma RecordStep(before: Collector, path: string, files: seq<AtosFile>, j: int)
    requires 0 <= j < |files|
    ensures Extend(before, path, FailureMessages(path, files[..j + 1])) ==
              if IsFailed(files[j]) then
                Append(Extend(before, path, FailureMessages(path, files[..j])), path,
                       ErrorMessage(path, files[j].outcome.description, files[j].outcome.trace))
              else Extend(before, path, FailureMessages(path, files[..j]))
  {
    assert files[..j + 1] == files[..j] + [files[j]];
    FailureMessagesSnoc(path, files[..j], files[j]);
    if IsFailed(files[j]) {
      ExtendSnoc(before, path, FailureMessages(path, files[..j]),
                 ErrorMessage(path, files[j].outcome.description, files[j].outcome.trace));
    } else {
      assert FailureMessages(path, files[..j]) + [] == FailureMessages(path, files[..j]);
    }
  }

  /** Processing one more file adds at most its own message at the end. */
  lemma FailureMessagesSnoc(path: string, files: seq<AtosFile>, f: AtosFile)
    ensures FailureMessages(path, files + [f]) ==
              FailureMessages(path, files) +
                (if IsFailed(f) then [ErrorMessage(path, f.outcome.description, f.outcome.trace)] else [])
  {
    Seqs.FilterAppend(files, [f], IsFailed);
    assert [f][..0] == [];
  }

  /** `Extend` by one more message is one more `Append`. */
  lemma ExtendSnoc(c: Collector, key: string, msgs: seq<string>, msg: string)
    ensures Extend(c, key, msgs + [msg]) == Append(Extend(c, key, msgs), key, msg)
  {
    assert (msgs + [msg])[..|msgs|] == msgs;
  }

  /** Every collector the run builds has the shape of one built by appending. */
  lemma {:induction false} CollectValid(folders: seq<string>, scan: string -> FolderContents)
    ensures Valid(Collect(folders, scan))
  {
    if folders != [] {
      var n := |folders| - 1;
      CollectValid(folders[..n], scan);
      ExtendValid(Collect(folders[..n], scan), FolderPath(folders[n]), FolderMessages(folders[n], scan(folders[n])));
    }
  }

  /** Exactly one message per failed file, in processing order: `idx` lists,
      in increasing order, the positions of the failed files and of no
      others, and the k-th message is the one for the k-th failed file. */
  lemma OneMessagePerFailure(path: string, files: seq<AtosFile>) returns (idx: seq<nat>)
    ensures |idx| == |FailureMessages(path, files)|
    ensures forall k, l :: 0 <= k < l < |idx| ==> idx[k] < idx[l]
    ensures forall k :: 0 <= k < |idx| ==>
              && idx[k] < |files| && IsFailed(files[idx[k]])
              && FailureMessages(path, files)[k] ==
                   ErrorMessage(path, files[idx[k]].outcome.description, files[idx[k]].outcome.trace)
    ensures forall i :: 0 <= i < |files| && IsFailed(files[i]) ==> i in idx
  {
    idx := Seqs.FilterIndices(files, IsFailed);
  }

  /** A folder contributes a message iff one of its old files failed. */
  lemma FolderMessagesNonEmpty(name: string, contents: FolderContents)
    ensures FolderMessages(name, contents) != [] <==>
              exists f :: f in contents.atosFiles && IsOld(contents.now, f.mtime) && IsFailed(f)
  {
    var oldFiles := SelectOldFiles(contents.atosFiles, contents.now);
    var failed := Seqs.Filter(oldFiles, IsFailed);
    assert |FolderMessages(name, contents)| == |failed|;
    if failed != [] {
      var f := failed[0];
      Seqs.FilterMembership(oldFiles, IsFailed, f);
      SelectOldFilesMembership(contents.atosFiles, contents.now, f);
    }
    forall f | f in contents.atosFiles && IsOld(contents.now, f.mtime) && IsFailed(f)
      ensures failed != []
    {
      SelectOldFilesMembership(contents.atosFiles, contents.now, f);
      Seqs.FilterMembership(oldFiles, IsFailed, f);
    }
  }

  /** The collector's list for each folder path: the path is a key iff some
      message was recorded for it, and then its list holds exactly the
      messages recorded for it, in processing order. */
  lemma {:induction false} CollectLists(folders: seq<string>, scan: string -> FolderContents, key: string)
    ensures key in Collect(folders, scan).lists <==> MessagesFor(folders, scan, key) != []
    ensures key in Collect(folders, scan).lists ==> Collect(folders, scan).lists[key] == MessagesFor(folders, scan, key)
  {
    if folders != [] {
      var n := |folders| - 1;
      var name := folders[n];
      CollectLists(folders[..n], scan, key);
      ExtendAppendsBlock(Collect(folders[..n], scan), FolderPath(name), FolderMessages(name, scan(name)));
    }
  }

  /** `str(folder)` tells folders apart. */
  lemma FolderPathInjective(a: string, b: string)
    requires FolderPath(a) == FolderPath(b)
    ensures a == b
  {
    var p := Root + "\\";
    assert FolderPath(a)[|p|..] == a;
    assert FolderPath(b)[|p|..] == b;
  }

  /** For a folder that is not in `folders`, nothing is recorded. */
  lemma {:induction false} MessagesForAbsent(folders: seq<string>, scan: string -> FolderContents, name: string)
    requires name !in folders
    ensures MessagesFor(folders, scan, FolderPath(name)) == []
  {
    if folders != [] {
      var n := |folders| - 1;
      assert folders[n] != name;
      MessagesForAbsent(folders[..n], scan, name);
      if FolderPath(folders[n]) == FolderPath(name) {
        FolderPathInjective(folders[n], name);
      }
    }
  }

  /** For a folder listed once, the messages recorded under its path are its
      own. */
  lemma {:induction false} MessagesForOnce(folders: seq<string>, scan: string -> FolderContents, i: int)
    requires 0 <= i < |folders|
    requires forall j :: 0 <= j < |folders| && j != i ==> folders[j] != folders[i]
    ensures MessagesFor(folders, scan, FolderPath(folders[i])) == FolderMessages(folders[i], scan(folders[i]))
  {
    var n := |folders| - 1;
    var name := folders[i];
    if i == n {
      assert name !in folders[..n];
      MessagesForAbsent(folders[..n], scan, name);
    } else {
      assert folders[..n][i] == name;
      MessagesForOnce(folders[..n], scan, i);
      if FolderPath(folders[n]) == FolderPath(name) {
        FolderPathInjective(folders[n], name);
      }
    }
  }

  /** Folder by folder: when the folders have distinct names (as a directory
      listing does), a folder is a key iff one of its old files failed, and
      its list holds one message per failed old file, in processing order. */
  lemma CollectPerFolder(folders: seq<string>, scan: string -> FolderContents, i: int)
    requires 0 <= i < |folders|
    requires forall j :: 0 <= j < |folders| && j != i ==> folders[j] != folders[i]
    ensures FolderPath(folders[i]) in Collect(folders, scan).lists <==>
              exists f :: f in scan(folders[i]).atosFiles && IsOld(scan(folders[i]).now, f.mtime) && IsFailed(f)
    ensures FolderPath(folders[i]) in Collect(folders, scan).lists ==>
              Collect(folders, scan).lists[FolderPath(folders[i])] == FolderMessages(folders[i], scan(folders[i]))
  {
    CollectLists(folders, scan, FolderPath(folders[i]));
    MessagesForOnce(folders, scan, i);
    FolderMessagesNonEmpty(folders[i], scan(folders[i]));
  }

  /** Every message in a list is filed under the folder it names. */
  lemma {:induction false} MessagesForPrefix(folders: seq<string>, scan: string -> FolderContents, key: string)
    ensures forall m :: m in MessagesFor(folders, scan, key) ==> ErrorPrefix(key) <= m
  {
    if folders != [] {
      var n := |folders| - 1;
      MessagesForPrefix(folders[..n], scan, key);
    }
  }

  /** Every recorded message starts with "Error in cleanup job of `<folder>`: ",
      naming the folder it is filed under. */
  lemma CollectMessagesPrefix(folders: seq<string>, scan: string -> FolderContents, key: string)
    requires key in Collect(folders, scan).lists
    ensures forall m :: m in Collect(folders, scan).lists[key] ==> ErrorPrefix(key) <= m
  {
    CollectLists(folders, scan, key);
    MessagesForPrefix(folders, scan, key);
  }

  /** Nothing is recorded iff no folder contributes a message. */
  lemma {:induction false} CollectEmptyIff(folders: seq<string>, scan: string -> FolderContents)
    ensures Collect(folders, scan).order == [] <==>
              forall i :: 0 <= i < |folders| ==> FolderMessages(folders[i], scan(folders[i])) == []
  {
    if folders != [] {
      var n := |folders| - 1;
      CollectEmptyIff(folders[..n], scan);
      CollectEmptySnoc(folders, scan);
      assert forall i :: 0 <= i < n ==> folders[..n][i] == folders[i];
    }
  }

  /** One more folder leaves the insertion order empty iff it was empty and
      the folder contributes nothing. */
  lemma CollectEmptySnoc(folders: seq<string>, scan: string -> FolderContents)
    requires folders != []
    ensures var n := |folders| - 1;
            Collect(folders, scan).order == [] <==>
              Collect(folders[..n], scan).order == [] && FolderMessages(folders[n], scan(folders[n])) == []
  {
    var n := |folders| - 1;
    var name := folders[n];
    var before := Collect(folders[..n], scan);
    var msgs := FolderMessages(name, scan(name));
    CollectValid(folders[..n], scan);
    ExtendAppendsBlock(before, FolderPath(name), msgs);
    if msgs != [] && FolderPath(name) in before.lists {
      assert FolderPath(name) in before.order;
    }
  }

  /** The report guard holds at the end iff some old file of some selected
      folder failed; in particular a run in which every file is cleaned shows
      no popup. */
  lemma ReportIffSomeFileFailed(folders: seq<string>, scan: string -> FolderContents)
    ensures Valid(Collect(folders, scan))
    ensures HasErrors(Collect(folders, scan)) <==> SomeFileFailed(folders, scan)
  {
    CollectValid(folders, scan);
    HasErrorsIffSomeKey(Collect(folders, scan));
    CollectEmptyIff(folders, scan);
    forall i | 0 <= i < |folders|
      ensures FolderMessages(folders[i], scan(folders[i])) != [] <==>
                exists f :: f in scan(folders[i]).atosFiles && IsOld(scan(folders[i]).now, f.mtime) && IsFailed(f)
    {
      FolderMessagesNonEmpty(folders[i], scan(folders[i]));
    }
  }
}
