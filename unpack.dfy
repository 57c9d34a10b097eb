/**
 * `unpack_all`: extract every archive found at the top level of the staging
 * directory into a sibling directory named after the archive's stem.
 * The archive library is an oracle: for each file name it says whether
 * extraction succeeded (and with which top-level contents), failed because
 * the format is not recognised, or failed some other way. Whether deleting
 * an archive succeeds is an oracle too.
 */
module Unpack {
  import opened Files

  /** What `shutil.unpack_archive` did with one file. */
  datatype Extraction =
    | Unpacked(contents: map<string, Entry>)  // extracted; the target's entries under these names as they stand afterwards
    | Unsupported                              // raised shutil.ReadError (format not recognised)
    | Broken                                   // raised any other exception

  /** The outside world of one run: the archive library and `Path.unlink`. */
  datatype Tools = Tools(extract: string -> Extraction, canUnlink: string -> bool)

  /** The state of the loop: the directory listing, the (archive, target)
      pairs extracted so far and the names skipped so far. */
  datatype Sweep = Sweep(dir: map<string, Entry>, extracted: seq<(string, string)>, skipped: seq<string>)

  /** What `unpack_all` leaves behind: its return code, the directory (None
      if it does not exist) and the two lists it reports. */
  datatype Report = Report(status: int, dir: Option<map<string, Entry>>,
                           extracted: seq<(string, string)>, skipped: seq<string>)

  predicate IsFile(d: map<string, Entry>, x: string) { x in d && d[x].File? }
  predicate IsDir(d: map<string, Entry>, x: string) { x in d && d[x].Dir? }

  /** The archive names of the extracted pairs, in order. */
  function Archives(pairs: seq<(string, string)>): (names: seq<string>)
    ensures |names| == |pairs|
    ensures forall i :: 0 <= i < |pairs| ==> names[i] == pairs[i].0
  {
    seq(|pairs|, i requires 0 <= i < |pairs| => pairs[i].0)
  }

  /** One iteration of the loop, for the entry `name` of the snapshot. A
      directory is passed over. Otherwise the target `Stem(name)` is created
      (a file already there makes `mkdir` raise, and the entry is skipped
      without any change), then the archive is extracted into it; on success
      the pair is recorded and, when asked, the archive deleted (a failed
      delete also records it as skipped); on failure it is skipped and the
      created target stays. */
  function Step(s: Sweep, name: string, remove: bool, tools: Tools): Sweep
  {
    if IsDir(s.dir, name) then s
    else
      var target := Stem(name);
      if IsFile(s.dir, target) then s.(skipped := s.skipped + [name])
      else
        var made := if target in s.dir then s.dir else s.dir[target := Dir(map[])];
        match tools.extract(name)
        case Unpacked(contents) =>
          var filled := made[target := Dir(made[target].children + contents)];
          var done := s.extracted + [(name, target)];
          if !remove then Sweep(filled, done, s.skipped)
          else if tools.canUnlink(name) then Sweep(filled - {name}, done, s.skipped)
          else Sweep(filled, done, s.skipped + [name])
        case _ => Sweep(made, s.extracted, s.skipped + [name])
  }

  /** The loop run over the snapshot `names`, starting from listing `d0`. */
  function Sweeps(d0: map<string, Entry>, names: seq<string>, remove: bool, tools: Tools): Sweep
    decreases |names|
  {
    if names == [] then Sweep(d0, [], [])
    else Step(Sweeps(d0, names[..|names| - 1], remove, tools), names[|names| - 1], remove, tools)
  }

  /** `unpack_all(raw_dir, remove_archive)`: 2 and nothing recorded when the
      directory is missing; otherwise the loop over the sorted snapshot of
      its entries, and 0 however many entries were skipped. */
  function UnpackReport(raw: Option<map<string, Entry>>, remove: bool, tools: Tools): (r: Report)
    ensures raw.None? ==> r == Report(2, raw, [], [])
    ensures raw.Some? ==> r.status == 0 && r.dir.Some?
  {
    match raw
    case None => Report(2, raw, [], [])
    case Some(d0) =>
      var s := Sweeps(d0, SortedNames(d0.Keys), remove, tools);
      Report(0, Some(s.dir), s.extracted, s.skipped)
  }

  method UnpackAll(raw: Folder, removeArchive: bool, tools: Tools)
    returns (status: int, extracted: seq<(string, string)>, skipped: seq<string>)
    modifies raw
    ensures Report(status, raw.entries, extracted, skipped) == UnpackReport(old(raw.entries), removeArchive, tools)
  {
    if raw.entries.None? {
      return 2, [], [];
    }
    extracted, skipped := UnpackListing(raw, removeArchive, tools);
    status := 0;
  }

  /** The loop over the sorted snapshot of an existing directory. */
  method UnpackListing(raw: Folder, removeArchive: bool, tools: Tools)
    returns (extracted: seq<(string, string)>, skipped: seq<string>)
    requires raw.entries.Some?
    modifies raw
    ensures raw.entries.Some?
    ensures Sweep(raw.entries.value, extracted, skipped) ==
            Sweeps(old(raw.entries.value), SortedNames(old(raw.entries.value).Keys), removeArchive, tools)
  {
    ghost var d0 := raw.entries.value;
    var names := SortedNames(raw.entries.value.Keys);
    extracted, skipped := [], [];
    for i := 0 to |names|
      invariant raw.entries.Some?
      invariant Sweep(raw.entries.value, extracted, skipped) == Sweeps(d0, names[..i], removeArchive, tools)
    {
      SweepsNext(d0, names, i, removeArchive, tools);
      extracted, skipped := UnpackOne(raw, names[i], removeArchive, tools, extracted, skipped);
    }
    assert names[..|names|] == names;
  }

  lemma SweepsNext(d0: map<string, Entry>, names: seq<string>, i: nat, remove: bool, tools: Tools)
    requires i < |names|
    ensures Sweeps(d0, names[..i + 1], remove, tools) == Step(Sweeps(d0, names[..i], remove, tools), names[i], remove, tools)
  {
    assert names[..i + 1][..i] == names[..i];
  }

  /** The body of the loop for one entry of the snapshot. */
  method UnpackOne(raw: Folder, name: string, removeArchive: bool, tools: Tools,
                   extracted: seq<(string, string)>, skipped: seq<string>)
    returns (extracted': seq<(string, string)>, skipped': seq<string>)
    requires raw.entries.Some?
    modifies raw
    ensures raw.entries.Some?
    ensures Sweep(raw.entries.value, extracted', skipped') ==
            Step(Sweep(old(raw.entries.value), extracted, skipped), name, removeArchive, tools)
  {
    extracted', skipped' := extracted, skipped;
    var dir := raw.entries.value;
    if name in dir && dir[name].Dir? {
      return;
    }
    var target := Stem(name);
    if target in dir && !dir[target].Dir? {
      // mkdir(exist_ok=True) raises FileExistsError over a file
      return extracted, skipped + [name];
    }
    if target !in dir {
      raw.entries := Some(dir[target := Dir(map[])]);
    }
    match tools.extract(name) {
      case Unpacked(contents) =>
        var made := raw.entries.value;
        raw.entries := Some(made[target := Dir(made[target].children + contents)]);
        extracted' := extracted + [(name, target)];
        if removeArchive {
          if tools.canUnlink(name) {
            raw.entries := Some(raw.entries.value - {name});
          } else {
            skipped' := skipped + [name];
          }
        }
      case Unsupported =>
        skipped' := skipped + [name];
      case Broken =>
        skipped' := skipped + [name];
    }
  }

  // ---------------------------------------------------------------------
  // What one step touches
  // ---------------------------------------------------------------------

  /** A step never removes a directory and never drops a child of one. */
  lemma StepKeepsDirs(s: Sweep, name: string, remove: bool, tools: Tools)
    ensures forall x :: IsDir(s.dir, x) ==>
              IsDir(Step(s, name, remove, tools).dir, x) &&
              s.dir[x].children.Keys <= Step(s, name, remove, tools).dir[x].children.Keys
  {
  }

  /** A step never creates or rewrites a file; it may only delete `name`. */
  lemma StepFiles(s: Sweep, name: string, remove: bool, tools: Tools)
    ensures var t := Step(s, name, remove, tools);
            forall x :: IsFile(t.dir, x) ==> x in s.dir && s.dir[x] == t.dir[x]
    ensures var t := Step(s, name, remove, tools);
            forall x :: IsFile(s.dir, x) && x != name ==> x in t.dir && t.dir[x] == s.dir[x]
  {
  }

  /** The extracted list only grows, by `name` at most. */
  lemma StepRecords(s: Sweep, name: string, remove: bool, tools: Tools)
    ensures var t := Step(s, name, remove, tools);
            t.extracted == s.extracted || t.extracted == s.extracted + [(name, Stem(name))]
    ensures var t := Step(s, name, remove, tools);
            t.skipped == s.skipped || t.skipped == s.skipped + [name]
  {
  }

  // ---------------------------------------------------------------------
  // What the whole loop does
  // ---------------------------------------------------------------------

  /** Directories in the snapshot are still directories afterwards. */
  lemma {:induction false} DirsSurvive(d0: map<string, Entry>, names: seq<string>, remove: bool, tools: Tools)
    ensures forall x :: IsDir(d0, x) ==> IsDir(Sweeps(d0, names, remove, tools).dir, x)
    decreases |names|
  {
    if names != [] {
      var prefix := names[..|names| - 1];
      DirsSurvive(d0, prefix, remove, tools);
      StepKeepsDirs(Sweeps(d0, prefix, remove, tools), names[|names| - 1], remove, tools);
    }
  }

  /** Every file present afterwards was there before, with the same bytes. */
  lemma {:induction false} NoFilesAppear(d0: map<string, Entry>, names: seq<string>, remove: bool, tools: Tools)
    ensures var r := Sweeps(d0, names, remove, tools);
            forall x :: IsFile(r.dir, x) ==> x in d0 && d0[x] == r.dir[x]
    decreases |names|
  {
    if names != [] {
      var prefix := names[..|names| - 1];
      NoFilesAppear(d0, prefix, remove, tools);
      StepFiles(Sweeps(d0, prefix, remove, tools), names[|names| - 1], remove, tools);
    }
  }

  /** An archive is deleted only when removal was asked for, it was
      extracted, and the delete worked; every other file is left as it was. */
  lemma {:induction false} ArchiveKept(d0: map<string, Entry>, names: seq<string>, remove: bool, tools: Tools, x: string)
    requires IsFile(d0, x)
    requires !(remove && tools.canUnlink(x) && x in Archives(Sweeps(d0, names, remove, tools).extracted))
    ensures var r := Sweeps(d0, names, remove, tools);
            x in r.dir && r.dir[x] == d0[x]
    decreases |names|
  {
    if names != [] {
      var prefix := names[..|names| - 1];
      var n := names[|names| - 1];
      var s := Sweeps(d0, prefix, remove, tools);
      StepRecords(s, n, remove, tools);
      assert Archives(s.extracted) <= Archives(Sweeps(d0, names, remove, tools).extracted);
      ArchiveKept(d0, prefix, remove, tools, x);
      StepFiles(s, n, remove, tools);
      if x == n {
        assert IsFile(s.dir, n);
        StemShape(n);
        var t := Step(s, n, remove, tools);
        if tools.extract(n).Unpacked? && !IsFile(s.dir, Stem(n)) {
          assert t.extracted == s.extracted + [(n, Stem(n))];
          assert Archives(t.extracted)[|s.extracted|] == n;
        }
      }
    }
  }

  /** How each entry of a sorted snapshot is classified: only files are
      recorded, in snapshot order; every file lands in `extracted` or in
      `skipped`; only a successful extraction is recorded as extracted, and
      a file is in both lists only when removal was asked for and the delete
      failed; each target is the archive's stem. */
  lemma Classification(d0: map<string, Entry>, names: seq<string>, remove: bool, tools: Tools)
    requires StrictlySorted(names)
    requires forall x :: x in names ==> x in d0
    ensures var r := Sweeps(d0, names, remove, tools);
            && (forall x :: x in Archives(r.extracted) ==>
                  x in names && IsFile(d0, x) && tools.extract(x).Unpacked?)
            && (forall x :: x in r.skipped ==> x in names && IsFile(d0, x))
            && (forall x :: x in names && IsFile(d0, x) ==> x in Archives(r.extracted) || x in r.skipped)
            && (forall x :: x in Archives(r.extracted) && x in r.skipped ==> remove && !tools.canUnlink(x))
            && (forall i :: 0 <= i < |r.extracted| ==> r.extracted[i].1 == Stem(r.extracted[i].0))
            && StrictlySorted(Archives(r.extracted))
            && StrictlySorted(r.skipped)
  {
    Recorded(d0, names, remove, tools);
    RecordOrder(d0, names, remove, tools);
  }

  /** Which entries each list records. */
  lemma {:induction false} Recorded(d0: map<string, Entry>, names: seq<string>, remove: bool, tools: Tools)
    requires StrictlySorted(names)
    requires forall x :: x in names ==> x in d0
    ensures var r := Sweeps(d0, names, remove, tools);
            && (forall x :: x in Archives(r.extracted) ==>
                  x in names && IsFile(d0, x) && tools.extract(x).Unpacked?)
            && (forall x :: x in r.skipped ==> x in names && IsFile(d0, x))
            && (forall x :: x in names && IsFile(d0, x) ==> x in Archives(r.extracted) || x in r.skipped)
            && (forall x :: x in Archives(r.extracted) && x in r.skipped ==> remove && !tools.canUnlink(x))
    decreases |names|
  {
    if names != [] {
      var prefix := names[..|names| - 1];
      var n := names[|names| - 1];
      var s := Sweeps(d0, prefix, remove, tools);
      assert StrictlySorted(prefix);
      Recorded(d0, prefix, remove, tools);
      LastIsNew(names);
      if IsFile(d0, n) {
        ArchiveKept(d0, prefix, remove, tools, n);
      } else {
        DirsSurvive(d0, prefix, remove, tools);
      }
      assert names == prefix + [n];
      RecordedStep(d0, prefix, n, s, remove, tools);
    }
  }

  /** In a strictly sorted listing the last name does not occur earlier. */
  lemma LastIsNew(names: seq<string>)
    requires StrictlySorted(names) && names != []
    ensures names[|names| - 1] !in names[..|names| - 1]
  {
    var n := names[|names| - 1];
    if n in names[..|names| - 1] {
      var j :| 0 <= j < |names| - 1 && names[j] == n;
      SortedDistinct(names, j, |names| - 1);
    }
  }

  /** One step keeps `Recorded`'s four facts, for an entry not seen before
      whose kind in the snapshot is still its kind when its turn comes. */
  lemma RecordedStep(d0: map<string, Entry>, prefix: seq<string>, n: string, s: Sweep, remove: bool, tools: Tools)
    requires n in d0 && n !in prefix
    requires IsFile(d0, n) ==> IsFile(s.dir, n)
    requires IsDir(d0, n) ==> IsDir(s.dir, n)
    requires && (forall x :: x in Archives(s.extracted) ==>
                   x in prefix && IsFile(d0, x) && tools.extract(x).Unpacked?)
             && (forall x :: x in s.skipped ==> x in prefix && IsFile(d0, x))
             && (forall x :: x in prefix && IsFile(d0, x) ==> x in Archives(s.extracted) || x in s.skipped)
             && (forall x :: x in Archives(s.extracted) && x in s.skipped ==> remove && !tools.canUnlink(x))
    ensures var t := Step(s, n, remove, tools);
            && (forall x :: x in Archives(t.extracted) ==>
                  x in prefix + [n] && IsFile(d0, x) && tools.extract(x).Unpacked?)
            && (forall x :: x in t.skipped ==> x in prefix + [n] && IsFile(d0, x))
            && (forall x :: x in prefix + [n] && IsFile(d0, x) ==> x in Archives(t.extracted) || x in t.skipped)
            && (forall x :: x in Archives(t.extracted) && x in t.skipped ==> remove && !tools.canUnlink(x))
  {
    var t := Step(s, n, remove, tools);
    StepRecords(s, n, remove, tools);
    assert Archives(t.extracted) == Archives(s.extracted) || Archives(t.extracted) == Archives(s.extracted) + [n];
  }

  /** Both lists follow the snapshot's order, and every target is the stem. */
  lemma {:induction false} RecordOrder(d0: map<string, Entry>, names: seq<string>, remove: bool, tools: Tools)
    requires StrictlySorted(names)
    requires forall x :: x in names ==> x in d0
    ensures var r := Sweeps(d0, names, remove, tools);
            && (forall i :: 0 <= i < |r.extracted| ==> r.extracted[i].1 == Stem(r.extracted[i].0))
            && StrictlySorted(Archives(r.extracted))
            && StrictlySorted(r.skipped)
    decreases |names|
  {
    if names != [] {
      var prefix := names[..|names| - 1];
      var n := names[|names| - 1];
      var s := Sweeps(d0, prefix, remove, tools);
      assert StrictlySorted(prefix);
      RecordOrder(d0, prefix, remove, tools);
      Recorded(d0, prefix, remove, tools);
      assert forall x :: x in prefix ==> Below(x, n) by {
        forall x | x in prefix ensures Below(x, n) {
          var j :| 0 <= j < |prefix| && prefix[j] == x;
        }
      }
      StepRecords(s, n, remove, tools);
    }
  }

  /** An entry whose target is blocked by a file is skipped and never
      extracted: always when the archive has no suffix (its stem is its own
      name), and, when nothing is deleted, whenever a file of the target's
      name exists. */
  lemma {:induction false} BlockedTarget(d0: map<string, Entry>, names: seq<string>, remove: bool, tools: Tools, x: string)
    requires StrictlySorted(names)
    requires forall y :: y in names ==> y in d0
    requires x in names && IsFile(d0, x)
    requires Stem(x) == x || (!remove && IsFile(d0, Stem(x)))
    ensures var r := Sweeps(d0, names, remove, tools);
            x in r.skipped && x !in Archives(r.extracted)
    decreases |names|
  {
    var prefix := names[..|names| - 1];
    var n := names[|names| - 1];
    var s := Sweeps(d0, prefix, remove, tools);
    var r := Sweeps(d0, names, remove, tools);
    assert StrictlySorted(prefix);
    StepRecords(s, n, remove, tools);
    Classification(d0, prefix, remove, tools);
    if x == n {
      assert x !in prefix by {
        if x in prefix {
          var j :| 0 <= j < |prefix| && prefix[j] == x;
          SortedDistinct(names, j, |names| - 1);
        }
      }
      ArchiveKept(d0, prefix, remove, tools, x);
      if Stem(x) != x {
        ArchiveKept(d0, prefix, remove, tools, Stem(x));
      }
      assert IsFile(s.dir, Stem(x));
    } else {
      BlockedTarget(d0, prefix, remove, tools, x);
      assert x != n;
    }
  }

  /** When the loop reaches an entry of a sorted snapshot, the entry is
      still what it was in the snapshot: a file with the same bytes, or a
      directory. */
  lemma AtItsTurn(d0: map<string, Entry>, names: seq<string>, remove: bool, tools: Tools)
    requires StrictlySorted(names) && names != []
    requires forall y :: y in names ==> y in d0
    ensures var n := names[|names| - 1];
            var s := Sweeps(d0, names[..|names| - 1], remove, tools);
            && (IsFile(d0, n) ==> IsFile(s.dir, n) && s.dir[n] == d0[n])
            && (IsDir(d0, n) ==> IsDir(s.dir, n))
            && n !in Archives(s.extracted)
  {
    var prefix := names[..|names| - 1];
    var n := names[|names| - 1];
    assert StrictlySorted(prefix);
    Classification(d0, prefix, remove, tools);
    assert n !in prefix by {
      if n in prefix {
        var j :| 0 <= j < |prefix| && prefix[j] == n;
        SortedDistinct(names, j, |names| - 1);
      }
    }
    if IsFile(d0, n) {
      ArchiveKept(d0, prefix, remove, tools, n);
    }
    DirsSurvive(d0, prefix, remove, tools);
  }

  /** The target of every file whose stem is not itself a file exists as a
      directory afterwards, whether or not extraction succeeded. */
  lemma {:induction false} TargetsMade(d0: map<string, Entry>, names: seq<string>, remove: bool, tools: Tools)
    requires StrictlySorted(names)
    requires forall y :: y in names ==> y in d0
    ensures var r := Sweeps(d0, names, remove, tools);
            forall x :: x in names && IsFile(d0, x) && !IsFile(d0, Stem(x)) ==> IsDir(r.dir, Stem(x))
    decreases |names|
  {
    if names != [] {
      var prefix := names[..|names| - 1];
      var n := names[|names| - 1];
      var s := Sweeps(d0, prefix, remove, tools);
      assert StrictlySorted(prefix);
      TargetsMade(d0, prefix, remove, tools);
      StepKeepsDirs(s, n, remove, tools);
      if IsFile(d0, n) && !IsFile(d0, Stem(n)) {
        AtItsTurn(d0, names, remove, tools);
        NoFilesAppear(d0, prefix, remove, tools);
        assert !IsFile(s.dir, Stem(n));
        assert Stem(n) != n;
        assert IsDir(Step(s, n, remove, tools).dir, Stem(n));
      }
    }
  }

  /** After a successful extraction the target is a directory holding
      (at least) every top-level entry of the archive. */
  lemma {:induction false} ExtractedIntoTarget(d0: map<string, Entry>, names: seq<string>, remove: bool, tools: Tools)
    requires StrictlySorted(names)
    requires forall y :: y in names ==> y in d0
    ensures var r := Sweeps(d0, names, remove, tools);
            forall x :: x in Archives(r.extracted) ==>
              tools.extract(x).Unpacked? && IsDir(r.dir, Stem(x)) &&
              tools.extract(x).contents.Keys <= r.dir[Stem(x)].children.Keys
    decreases |names|
  {
    if names != [] {
      var prefix := names[..|names| - 1];
      var n := names[|names| - 1];
      var s := Sweeps(d0, prefix, remove, tools);
      var r := Step(s, n, remove, tools);
      assert StrictlySorted(prefix);
      ExtractedIntoTarget(d0, prefix, remove, tools);
      StepKeepsDirs(s, n, remove, tools);
      StepRecords(s, n, remove, tools);
      if r.extracted != s.extracted {
        AtItsTurn(d0, names, remove, tools);
        assert !IsDir(s.dir, n) && !IsFile(s.dir, Stem(n));
        assert IsFile(s.dir, n);
        assert Stem(n) != n;
      }
      assert Archives(r.extracted) == Archives(s.extracted) || Archives(r.extracted) == Archives(s.extracted) + [n];
    }
  }

  /** The converse of `Recorded`: a file whose extraction succeeds and whose
      target is not a file in the snapshot is recorded as extracted, and it
      is also listed as skipped only when removal was asked for and the
      delete failed. */
  lemma {:induction false} SuccessRecorded(d0: map<string, Entry>, names: seq<string>, remove: bool, tools: Tools, x: string)
    requires StrictlySorted(names)
    requires forall y :: y in names ==> y in d0
    requires x in names && IsFile(d0, x) && !IsFile(d0, Stem(x)) && tools.extract(x).Unpacked?
    ensures var r := Sweeps(d0, names, remove, tools);
            x in Archives(r.extracted) && (x in r.skipped ==> remove && !tools.canUnlink(x))
    decreases |names|
  {
    var prefix := names[..|names| - 1];
    var n := names[|names| - 1];
    var s := Sweeps(d0, prefix, remove, tools);
    var r := Sweeps(d0, names, remove, tools);
    assert StrictlySorted(prefix);
    StepRecords(s, n, remove, tools);
    if x == n {
      AtItsTurn(d0, names, remove, tools);
      NoFilesAppear(d0, prefix, remove, tools);
      assert !IsFile(s.dir, Stem(n));
      assert r.extracted == s.extracted + [(n, Stem(n))];
      assert Archives(r.extracted)[|s.extracted|] == n;
    } else {
      assert x in prefix;
      SuccessRecorded(d0, prefix, remove, tools, x);
      var i :| 0 <= i < |s.extracted| && Archives(s.extracted)[i] == x;
      assert Archives(r.extracted)[i] == x;
    }
    Recorded(d0, names, remove, tools);
  }

  /** A file whose extraction succeeds and whose target is not a file in the
      snapshot has its target directory holding the archive's contents. */
  lemma GoodArchiveFillsTarget(d0: map<string, Entry>, names: seq<string>, remove: bool, tools: Tools, x: string)
    requires StrictlySorted(names)
    requires forall y :: y in names ==> y in d0
    requires x in names && IsFile(d0, x) && !IsFile(d0, Stem(x)) && tools.extract(x).Unpacked?
    ensures var r := Sweeps(d0, names, remove, tools);
            IsDir(r.dir, Stem(x)) && tools.extract(x).contents.Keys <= r.dir[Stem(x)].children.Keys
  {
    SuccessRecorded(d0, names, remove, tools, x);
    ExtractedIntoTarget(d0, names, remove, tools);
  }

  /** Without removal, an entry is recorded as extracted exactly when it is a
      file, its stem is not a file, and its extraction succeeds. */
  lemma ExtractedIff(d0: map<string, Entry>, names: seq<string>, tools: Tools, x: string)
    requires StrictlySorted(names)
    requires forall y :: y in names ==> y in d0
    ensures var r := Sweeps(d0, names, false, tools);
            x in Archives(r.extracted) <==>
              x in names && IsFile(d0, x) && !IsFile(d0, Stem(x)) && tools.extract(x).Unpacked?
  {
    Recorded(d0, names, false, tools);
    if x in names && IsFile(d0, x) {
      if IsFile(d0, Stem(x)) {
        BlockedTarget(d0, names, false, tools, x);
      } else if tools.extract(x).Unpacked? {
        SuccessRecorded(d0, names, false, tools, x);
      }
    }
  }
}
