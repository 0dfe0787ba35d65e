/** The file system as the converter sees it: which paths exist, whether each is a
    file or a directory, and its modification time. */
module Files {

  import opened Wrappers
  import opened Paths

  datatype Entry = File(mtime: int) | Dir(mtime: int)

  type Entries = map<Path, Entry>

  /** The proper and improper prefixes of `d` below the root: every directory
      that `mkdir(parents=True)` must find or create. */
  function Prefixes(d: Path): (r: set<Path>)
    ensures forall i :: 1 <= i <= |d| ==> d[..i] in r
    ensures forall q :: q in r ==> 1 <= |q| <= |d| && d[..|q|] == q
  {
    set i | 1 <= i <= |d| :: d[..i]
  }

  /** `mkdir(parents=True, exist_ok=True)` raises when some prefix of the
      directory already exists as a file. */
  predicate MkdirBlocked(es: Entries, d: Path) {
    exists q :: q in Prefixes(d) && q in es && es[q].File?
  }

  /** `mkdir(parents=True, exist_ok=True)` on `d` at time `now`: the new state,
      or `None` when it raises. */
  function MakeDirs(es: Entries, d: Path, now: int): (r: Option<Entries>)
    ensures r.Some? <==> !MkdirBlocked(es, d)
    ensures r.Some? ==> forall q :: q in Prefixes(d) ==> q in r.value && r.value[q].Dir?
    ensures r.Some? ==> forall p :: p in es ==> p in r.value && r.value[p] == es[p]
    ensures r.Some? ==> forall p :: p in r.value ==> p in es || p in Prefixes(d)
  {
    if MkdirBlocked(es, d) then None
    else Some(es + map q | q in Prefixes(d) && q !in es :: Dir(now))
  }

  /** Once every directory exists, `mkdir` changes nothing. */
  lemma MakeDirsIdle(es: Entries, d: Path, now: int)
    requires forall q :: q in Prefixes(d) ==> q in es && es[q].Dir?
    ensures MakeDirs(es, d, now) == Some(es)
  {
    var added := map q | q in Prefixes(d) && q !in es :: Dir(now);
    assert added == map[];
    assert es + added == es;
  }

  /** The state on a disk: the class whose entries the converter and `mkdir` change. */
  class FileSystem {
    var entries: Entries

    constructor (entries: Entries)
      ensures this.entries == entries
    {
      this.entries := entries;
    }

    function Exists(p: Path): (b: bool)
      reads this
      ensures b <==> p in entries
    {
      p in entries
    }

    method Mkdir(d: Path, now: int) returns (ok: bool)
      modifies this
      ensures ok <==> !MkdirBlocked(old(entries), d)
      ensures ok ==> Some(entries) == MakeDirs(old(entries), d, now)
      ensures !ok ==> entries == old(entries)
    {
      var r := MakeDirs(entries, d, now);
      ok := r.Some?;
      if ok {
        entries := r.value;
      }
    }

    /** A file written (or overwritten) at `p` at time `now`. */
    method Write(p: Path, now: int)
      modifies this
      ensures entries == old(entries)[p := File(now)]
    {
      entries := entries[p := File(now)];
    }
  }
}
