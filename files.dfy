/**
 * The filesystem vocabulary shared by the mod scripts: directory entries,
 * the order in which Python sorts sibling paths, and the pathlib notion of a
 * file's stem.
 */
module Files {

  datatype Option<T> = None | Some(value: T)

  type Bytes = seq<bv8>

  /** A directory entry. A file holds opaque bytes; a directory maps the
      names of its children to their entries. Copying an entry copies the
      whole value, which stands for `shutil.copy2` / `shutil.copytree`. */
  datatype Entry = File(bytes: Bytes) | Dir(children: map<string, Entry>)

  /** A directory on disk: `None` when the path does not exist, otherwise
      its top-level listing. */
  class Folder {
    var entries: Option<map<string, Entry>>

    constructor (entries: Option<map<string, Entry>>)
      ensures this.entries == entries
    {
      this.entries := entries;
    }
  }

  // ---------------------------------------------------------------------
  // Sorting sibling paths
  // ---------------------------------------------------------------------

  /** Python's string order: lexicographic by code point, a proper prefix
      first. Sorting the children of one directory compares their names
      this way. */
  predicate Below(a: string, b: string)
  {
    if |b| == 0 then false
    else if |a| == 0 then true
    else if a[0] != b[0] then a[0] < b[0]
    else Below(a[1..], b[1..])
  }

  lemma {:induction false} BelowIrreflexive(a: string)
    ensures !Below(a, a)
  {
    if |a| > 0 { BelowIrreflexive(a[1..]); }
  }

  lemma {:induction false} BelowTransitive(a: string, b: string, c: string)
    requires Below(a, b) && Below(b, c)
    ensures Below(a, c)
  {
    if |a| > 0 && a[0] == b[0] && b[0] == c[0] {
      BelowTransitive(a[1..], b[1..], c[1..]);
    }
  }

  lemma {:induction false} BelowTotal(a: string, b: string)
    requires a != b
    ensures Below(a, b) || Below(b, a)
  {
    if |a| > 0 && |b| > 0 && a[0] == b[0] {
      assert a == [a[0]] + a[1..] && b == [b[0]] + b[1..];
      BelowTotal(a[1..], b[1..]);
    }
  }

  /** A proper prefix sorts before the longer name. */
  lemma {:induction false} ProperPrefixBelow(a: string, b: string)
    requires |a| < |b| && a == b[..|a|]
    ensures Below(a, b)
  {
    if |a| > 0 {
      assert a[1..] == b[1..][..|a| - 1];
      ProperPrefixBelow(a[1..], b[1..]);
    }
  }

  predicate IsLeast(m: string, s: set<string>)
  {
    m in s && forall x :: x in s && x != m ==> Below(m, x)
  }

  lemma {:induction false} LeastExists(s: set<string>)
    requires s != {}
    ensures exists m :: IsLeast(m, s)
    decreases |s|
  {
    var x :| x in s;
    if s == {x} {
      assert IsLeast(x, s);
    } else {
      LeastExists(s - {x});
      var m :| IsLeast(m, s - {x});
      if Below(m, x) {
        assert IsLeast(m, s);
      } else {
        BelowTotal(m, x);
        forall y | y in s && y != x
          ensures Below(x, y)
        {
          if y != m { BelowTransitive(x, m, y); }
        }
        assert IsLeast(x, s);
      }
    }
  }

  lemma LeastUnique(s: set<string>, a: string, b: string)
    requires IsLeast(a, s) && IsLeast(b, s)
    ensures a == b
  {
    if a != b {
      BelowTransitive(a, b, a);
      BelowIrreflexive(a);
    }
  }

  /** The first name of a non-empty set in sorted order. */
  function Least(s: set<string>): (m: string)
    requires s != {}
    ensures IsLeast(m, s)
  {
    LeastExists(s);
    forall a, b | IsLeast(a, s) && IsLeast(b, s)
      ensures a == b
    {
      LeastUnique(s, a, b);
    }
    var m :| IsLeast(m, s);
    m
  }

  predicate StrictlySorted(names: seq<string>)
  {
    forall i, j :: 0 <= i < j < |names| ==> Below(names[i], names[j])
  }

  /** `sorted(d.iterdir())` for a directory whose children are `s`: every
      name exactly once, in ascending order. */
  function SortedNames(s: set<string>): (r: seq<string>)
    ensures StrictlySorted(r)
    ensures forall x :: x in r <==> x in s
    ensures |r| == |s|
    decreases |s|
  {
    if s == {} then []
    else
      var m := Least(s);
      var rest := SortedNames(s - {m});
      assert forall j :: 0 <= j < |rest| ==> rest[j] in s - {m};
      [m] + rest
  }

  /** A sorted listing is determined by its set of names: the snapshot the
      loops iterate over is well defined whatever order the OS lists in. */
  lemma {:induction false} SortedListingUnique(a: seq<string>, s: set<string>)
    requires StrictlySorted(a)
    requires forall x :: x in a <==> x in s
    ensures a == SortedNames(s)
    decreases |a|
  {
    if a == [] {
      assert s == {};
    } else {
      assert a[0] in s;
      var m := Least(s);
      assert m == a[0] by {
        SortedHeadLeast(a, s);
        LeastUnique(s, a[0], m);
      }
      assert a[1..] == SortedNames(s - {m}) by {
        SortedTailListing(a, s);
        SortedListingUnique(a[1..], s - {m});
      }
      assert a == [m] + a[1..];
    }
  }

  /** The first name of a sorted listing is the least name of the set. */
  lemma SortedHeadLeast(a: seq<string>, s: set<string>)
    requires StrictlySorted(a) && a != []
    requires forall x :: x in a <==> x in s
    ensures IsLeast(a[0], s)
  {
    assert a[0] in s;
    forall x | x in s && x != a[0]
      ensures Below(a[0], x)
    {
      var j :| 0 <= j < |a| && a[j] == x;
      assert j != 0;
    }
  }

  /** Dropping the first name of a sorted listing lists the rest of the set. */
  lemma SortedTailListing(a: seq<string>, s: set<string>)
    requires StrictlySorted(a) && a != []
    requires forall x :: x in a <==> x in s
    ensures forall x :: x in a[1..] <==> x in s - {a[0]}
  {
    forall x
      ensures x in a[1..] <==> x in s - {a[0]}
    {
      if x in a[1..] {
        var j :| 1 <= j < |a| && a[j] == x;
        assert Below(a[0], a[j]);
        if x == a[0] { BelowIrreflexive(x); }
      }
      if x in s - {a[0]} {
        var j :| 0 <= j < |a| && a[j] == x;
        assert j != 0;
        assert a[1..][j - 1] == x;
      }
    }
  }

  /** Sorting keeps names distinct: a sorted listing has no repeats. */
  lemma SortedDistinct(names: seq<string>, i: int, j: int)
    requires StrictlySorted(names)
    requires 0 <= i < |names| && 0 <= j < |names| && i != j
    ensures names[i] != names[j]
  {
    if i < j {
      if names[i] == names[j] { BelowIrreflexive(names[i]); }
    } else {
      if names[i] == names[j] { BelowIrreflexive(names[i]); }
    }
  }

  // ---------------------------------------------------------------------
  // Path.stem
  // ---------------------------------------------------------------------

  /** Index of the last '.' in `name`, or -1 when there is none. */
  function LastDot(name: string): (i: int)
    ensures -1 <= i < |name|
    ensures 0 <= i ==> name[i] == '.'
    ensures forall k :: i < k < |name| ==> name[k] != '.'
  {
    if |name| == 0 then -1
    else if name[|name| - 1] == '.' then |name| - 1
    else LastDot(name[..|name| - 1])
  }

  /** `PurePath.stem` of a single path component: the name without its last
      suffix, where a suffix starts at the last dot, is not the leading
      character and is not the trailing character. */
  function Stem(name: string): string
  {
    var i := LastDot(name);
    if 0 < i < |name| - 1 then name[..i] else name
  }

  /** The stem is a prefix of the name; it is the whole name exactly when the
      name has no suffix, and otherwise it drops the last '.' and what follows. */
  lemma StemShape(name: string)
    ensures |Stem(name)| <= |name| && Stem(name) == name[..|Stem(name)|]
    ensures Stem(name) == name <==> !(0 < LastDot(name) < |name| - 1)
    ensures Stem(name) != name ==>
              name[|Stem(name)|] == '.' && 0 < |Stem(name)| < |name| - 1 &&
              forall k :: |Stem(name)| < k < |name| ==> name[k] != '.'
  {
  }

  /** An archive's stem sorts strictly before the archive itself. */
  lemma StemBelow(name: string)
    requires Stem(name) != name
    ensures Below(Stem(name), name)
  {
    StemShape(name);
    ProperPrefixBelow(Stem(name), name);
  }
}
