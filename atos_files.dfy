/** The project files of a folder and the age filter applied to them
    (main.py, lines 98-106). Times are integer microseconds, the resolution of
    Python's `datetime`; the clock reading `now` and each file's modification
    time are inputs. */
module AtosFiles {
  import Seqs

  /** What the host application did with one file: the load / strip / save
      sequence either went through or raised an exception, whose text
      (`str(e)`) and formatted stack trace are kept as opaque strings. */
  datatype Outcome = Cleaned | Failed(description: string, trace: string)

  /** A `*.atos` project file of a folder: its modification time and what the
      host application does with it. */
  datatype AtosFile = AtosFile(mtime: int, outcome: Outcome)

  /** What processing a folder sees: the clock reading taken for that folder
      and its project files in enumeration order. */
  datatype FolderContents = FolderContents(now: int, atosFiles: seq<AtosFile>)

  const MicrosecondsPerDay: int := 86_400_000_000

  /** `min_age`, in days. */
  const MinAgeDays: int := 14

  /** `(now - mtime).days`: the whole days of the difference, rounded down
      (towards minus infinity, as `timedelta` normalises its fields). */
  function AgeDays(now: int, mtime: int): (days: int)
    ensures days * MicrosecondsPerDay <= now - mtime < (days + 1) * MicrosecondsPerDay
  {
    (now - mtime) / MicrosecondsPerDay
  }

  /** The condition of the age comprehension. */
  predicate IsOld(now: int, mtime: int)
  {
    AgeDays(now, mtime) > MinAgeDays
  }

  /** The age comprehension: the files of a folder older than `min_age` days. */
  function SelectOldFiles(files: seq<AtosFile>, now: int): (r: seq<AtosFile>)
    ensures |r| <= |files|
    ensures forall k :: 0 <= k < |r| ==> IsOld(now, r[k].mtime)
  {
    Seqs.Filter(files, (f: AtosFile) => IsOld(now, f.mtime))
  }

  /** The threshold is strict: a file is old iff it is at least fifteen full
      days old, so a file exactly fourteen days old (or anything younger, or
      stamped in the future) is never processed. */
  lemma IsOldThreshold(now: int, mtime: int)
    ensures IsOld(now, mtime) <==> now - mtime >= (MinAgeDays + 1) * MicrosecondsPerDay
  {
  }

  /** `.days` floors rather than truncates: a file stamped one microsecond in
      the future is -1 days old. */
  lemma AgeDaysFloors(now: int)
    ensures AgeDays(now, now + 1) == -1
    ensures AgeDays(now, now - 1) == 0
  {
  }

  /** The files kept are exactly the old ones among the folder's files, in
      enumeration order. */
  lemma SelectOldFilesExact(files: seq<AtosFile>, now: int) returns (idx: seq<nat>)
    ensures |idx| == |SelectOldFiles(files, now)|
    ensures forall k :: 0 <= k < |idx| ==> idx[k] < |files| && SelectOldFiles(files, now)[k] == files[idx[k]]
    ensures forall k, l :: 0 <= k < l < |idx| ==> idx[k] < idx[l]
    ensures forall i :: 0 <= i < |files| && IsOld(now, files[i].mtime) ==> i in idx
  {
    idx := Seqs.FilterIndices(files, (f: AtosFile) => IsOld(now, f.mtime));
  }

  /** A file is processed iff it is in the folder and is old. */
  lemma SelectOldFilesMembership(files: seq<AtosFile>, now: int, f: AtosFile)
    ensures f in SelectOldFiles(files, now) <==> f in files && IsOld(now, f.mtime)
  {
    Seqs.FilterMembership(files, (f: AtosFile) => IsOld(now, f.mtime), f);
  }
}
