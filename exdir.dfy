/**
  The `exdir` command (main.py:201-234). One pass moves the contents of every
  directory of the working directory up into it, each entry renamed to the
  directory's name in upper case, "_ " and its old name, and removes the
  emptied directories. Unless `-R` is given, passes repeat while a directory
  is left. The working directory is a sequence of entries; files carry no
  contents because the command never looks at them.
*/
module Exdir {

  datatype Entry = File(name: string) | Dir(name: string, children: seq<Entry>)

  /** `str.upper()` on one character: ASCII letters and the German letters; `ß` becomes "SS". */
  function UpperChar(c: char): string
  {
    if 'a' <= c <= 'z' then [(c as int - 32) as char]
    else if c == 'ä' then "Ä"
    else if c == 'ö' then "Ö"
    else if c == 'ü' then "Ü"
    else if c == 'ß' then "SS"
    else [c]
  }

  function Upper(s: string): string
  {
    if s == [] then [] else UpperChar(s[0]) + Upper(s[1..])
  }

  lemma {:induction false} UpperConcat(a: string, b: string)
    ensures Upper(a + b) == Upper(a) + Upper(b)
  {
    if a != [] {
      assert (a + b)[0] == a[0];
      assert (a + b)[1..] == a[1..] + b;
      UpperConcat(a[1..], b);
    } else {
      assert a + b == b;
    }
  }

  lemma UpperCharFixed(c: char)
    ensures Upper(UpperChar(c)) == UpperChar(c)
  {
    var u := UpperChar(c);
    if c == 'ß' {
      assert u == ['S'] + ['S'];
      UpperConcat(['S'], ['S']);
    } else {
      assert |u| == 1 && u[1..] == [];
    }
  }

  /** Upper-casing twice is upper-casing once, so a moved entry's prefix is stable. */
  lemma {:induction false} UpperIdempotent(s: string)
    ensures Upper(Upper(s)) == Upper(s)
  {
    if s != [] {
      UpperConcat(UpperChar(s[0]), Upper(s[1..]));
      UpperCharFixed(s[0]);
      UpperIdempotent(s[1..]);
    }
  }

  /** The name an entry of directory `d` gets when it is moved up (main.py:217). */
  function Moved(d: string, e: Entry): Entry
  {
    e.(name := Upper(d) + "_ " + e.name)
  }

  function MoveChildren(d: string, kids: seq<Entry>): (r: seq<Entry>)
    ensures |r| == |kids|
    ensures forall k :: 0 <= k < |kids| ==> r[k] == Moved(d, kids[k])
  {
    if kids == [] then [] else [Moved(d, kids[0])] + MoveChildren(d, kids[1..])
  }

  lemma {:induction false} MoveChildrenConcat(d: string, a: seq<Entry>, b: seq<Entry>)
    ensures MoveChildren(d, a + b) == MoveChildren(d, a) + MoveChildren(d, b)
  {
    var l, r := MoveChildren(d, a + b), MoveChildren(d, a) + MoveChildren(d, b);
    assert |l| == |r|;
    forall k | 0 <= k < |l|
      ensures l[k] == r[k]
    {
      if k < |a| {
        assert (a + b)[k] == a[k];
      } else {
        assert (a + b)[k] == b[k - |a|];
      }
    }
  }

  /** What one entry of the working directory becomes in a pass: a file stays, a directory gives way to its renamed contents. */
  function Lift(e: Entry): seq<Entry>
  {
    match e
    case File(_) => [e]
    case Dir(d, kids) => MoveChildren(d, kids)
  }

  /** One call of `extract` before its recursion check (main.py:210-222). */
  function Pass(wd: seq<Entry>): seq<Entry>
  {
    if wd == [] then [] else Lift(wd[0]) + Pass(wd[1..])
  }

  /** Files of the working directory stay where they are. */
  lemma {:induction false} PassKeepsTopFiles(wd: seq<Entry>, e: Entry)
    requires e in wd && e.File?
    ensures e in Pass(wd)
  {
    if wd[0] != e {
      PassKeepsTopFiles(wd[1..], e);
    }
  }

  /** Every child of a directory of the working directory arrives in it, renamed. */
  lemma {:induction false} PassMovesChildren(wd: seq<Entry>, dir: Entry, k: Entry)
    requires dir in wd && dir.Dir? && k in dir.children
    ensures Moved(dir.name, k) in Pass(wd)
  {
    if wd[0] == dir {
      var j :| 0 <= j < |dir.children| && dir.children[j] == k;
      assert Lift(wd[0])[j] == Moved(dir.name, k);
    } else {
      PassMovesChildren(wd[1..], dir, k);
    }
  }

  /** Nothing else appears: every entry after a pass is an earlier file or a moved child. */
  lemma {:induction false} PassAddsNothing(wd: seq<Entry>, e: Entry)
    requires e in Pass(wd)
    ensures (e in wd && e.File?) || exists j :: 0 <= j < |wd| && wd[j].Dir? && e in MoveChildren(wd[j].name, wd[j].children)
  {
    if e in Lift(wd[0]) {
      if wd[0].Dir? {
        assert e in MoveChildren(wd[0].name, wd[0].children);
      }
    } else {
      PassAddsNothing(wd[1..], e);
      if !(e in wd[1..] && e.File?) {
        var j :| 0 <= j < |wd[1..]| && wd[1..][j].Dir? && e in MoveChildren(wd[1..][j].name, wd[1..][j].children);
        assert wd[j + 1] == wd[1..][j];
      }
    }
  }

  lemma {:induction false} PassConcat(a: seq<Entry>, b: seq<Entry>)
    ensures Pass(a + b) == Pass(a) + Pass(b)
  {
    if a == [] {
      assert a + b == b;
    } else {
      assert (a + b)[0] == a[0];
      assert (a + b)[1..] == a[1..] + b;
      PassConcat(a[1..], b);
    }
  }

  predicate HasDir(wd: seq<Entry>)
  {
    exists i :: 0 <= i < |wd| && wd[i].Dir?
  }

  // ---------------------------------------------------------------------------
  // Sizes: how deep directories nest, and how many files there are

  function Height(e: Entry): nat
  {
    match e
    case File(_) => 0
    case Dir(_, kids) => 1 + MaxHeight(kids)
  }

  function MaxHeight(wd: seq<Entry>): nat
  {
    if wd == [] then 0
    else
      var h, t := Height(wd[0]), MaxHeight(wd[1..]);
      if h < t then t else h
  }

  function FileCount(e: Entry): nat
  {
    match e
    case File(_) => 1
    case Dir(_, kids) => FileCountAll(kids)
  }

  function FileCountAll(wd: seq<Entry>): nat
  {
    if wd == [] then 0 else FileCount(wd[0]) + FileCountAll(wd[1..])
  }

  lemma {:induction false} FileCountConcat(a: seq<Entry>, b: seq<Entry>)
    ensures FileCountAll(a + b) == FileCountAll(a) + FileCountAll(b)
  {
    if a == [] {
      assert a + b == b;
    } else {
      assert (a + b)[0] == a[0];
      assert (a + b)[1..] == a[1..] + b;
      FileCountConcat(a[1..], b);
    }
  }

  lemma {:induction false} MaxHeightConcat(a: seq<Entry>, b: seq<Entry>)
    ensures var h, ha, hb := MaxHeight(a + b), MaxHeight(a), MaxHeight(b);
      h == if ha < hb then hb else ha
  {
    if a == [] {
      assert a + b == b;
    } else {
      assert (a + b)[0] == a[0];
      assert (a + b)[1..] == a[1..] + b;
      MaxHeightConcat(a[1..], b);
    }
  }

  lemma {:induction false} MoveChildrenSizes(d: string, kids: seq<Entry>)
    ensures FileCountAll(MoveChildren(d, kids)) == FileCountAll(kids)
    ensures MaxHeight(MoveChildren(d, kids)) == MaxHeight(kids)
  {
    if kids != [] {
      var m := MoveChildren(d, kids);
      assert m[0] == Moved(d, kids[0]);
      assert m[1..] == MoveChildren(d, kids[1..]);
      MoveChildrenSizes(d, kids[1..]);
    }
  }

  /** A pass moves files and directories but loses and creates none of the files. */
  lemma {:induction false} PassKeepsFiles(wd: seq<Entry>)
    ensures FileCountAll(Pass(wd)) == FileCountAll(wd)
  {
    if wd != [] {
      FileCountConcat(Lift(wd[0]), Pass(wd[1..]));
      PassKeepsFiles(wd[1..]);
      if wd[0].Dir? {
        MoveChildrenSizes(wd[0].name, wd[0].children);
      }
    }
  }

  /** A pass lifts every directory one level: the nesting depth drops by one. */
  lemma {:induction false} PassLowers(wd: seq<Entry>)
    ensures MaxHeight(Pass(wd)) == if MaxHeight(wd) == 0 then 0 else MaxHeight(wd) - 1
  {
    if wd != [] {
      MaxHeightConcat(Lift(wd[0]), Pass(wd[1..]));
      PassLowers(wd[1..]);
      if wd[0].Dir? {
        MoveChildrenSizes(wd[0].name, wd[0].children);
      } else {
        assert Lift(wd[0])[1..] == [];
      }
    }
  }

  lemma {:induction false} HasDirHeight(wd: seq<Entry>)
    ensures HasDir(wd) <==> MaxHeight(wd) > 0
  {
    if wd != [] {
      HasDirHeight(wd[1..]);
      if HasDir(wd[1..]) {
        var i :| 0 <= i < |wd[1..]| && wd[1..][i].Dir?;
        assert wd[i + 1].Dir?;
      }
      if HasDir(wd) && !wd[0].Dir? {
        var i :| 0 <= i < |wd| && wd[i].Dir?;
        assert wd[1..][i - 1].Dir?;
      }
    }
  }

  /** `exdir` without and with `-R` (main.py:224-234): repeat passes while a directory is left, or stop after one. */
  function Extract(wd: seq<Entry>, noRecursion: bool): seq<Entry>
    decreases MaxHeight(wd)
  {
    var p := Pass(wd);
    if noRecursion || !HasDir(p) then p
    else
      PassLowers(wd);
      HasDirHeight(p);
      Extract(p, noRecursion)
  }

  // ---------------------------------------------------------------------------
  // The reference: every file, renamed once for each directory it sat in

  function Flatten(wd: seq<Entry>): seq<Entry>
  {
    if wd == [] then [] else FlattenEntry(wd[0]) + Flatten(wd[1..])
  }

  function FlattenEntry(e: Entry): seq<Entry>
  {
    match e
    case File(_) => [e]
    case Dir(d, kids) => MoveChildren(d, Flatten(kids))
  }

  lemma {:induction false} FlattenConcat(a: seq<Entry>, b: seq<Entry>)
    ensures Flatten(a + b) == Flatten(a) + Flatten(b)
  {
    if a == [] {
      assert a + b == b;
    } else {
      assert (a + b)[0] == a[0];
      assert (a + b)[1..] == a[1..] + b;
      FlattenConcat(a[1..], b);
    }
  }

  lemma UpperSeparator()
    ensures Upper("_ ") == "_ "
  {
    assert "_ " == ['_'] + [' '];
    UpperConcat(['_'], [' ']);
    assert ['_'][1..] == [] && [' '][1..] == [];
  }

  /** Upper-casing an entry name that already starts with an upper-cased prefix leaves that prefix and the separator alone. */
  lemma UpperPrefix(d: string, m: string)
    ensures Upper(Upper(d) + "_ " + m) == Upper(d) + "_ " + Upper(m)
  {
    UpperConcat(Upper(d) + "_ ", m);
    UpperConcat(Upper(d), "_ ");
    UpperIdempotent(d);
    UpperSeparator();
  }

  /** The prefix of a twice-moved entry. */
  lemma MovedTwice(d: string, m: string, x: Entry)
    ensures Moved(Upper(d) + "_ " + m, x) == Moved(d, Moved(m, x))
  {
    UpperPrefix(d, m);
    assert Upper(d) + "_ " + Upper(m) + "_ " + x.name == Upper(d) + "_ " + (Upper(m) + "_ " + x.name);
  }

  /** Moving out of `m` and then out of `d` is moving out of the directory `Moved(d, m)` names. */
  lemma MoveTwice(d: string, m: string, s: seq<Entry>)
    ensures MoveChildren(Upper(d) + "_ " + m, s) == MoveChildren(d, MoveChildren(m, s))
  {
    var l, r := MoveChildren(Upper(d) + "_ " + m, s), MoveChildren(d, MoveChildren(m, s));
    forall k | 0 <= k < |s|
      ensures l[k] == r[k]
    {
      MovedTwice(d, m, s[k]);
    }
  }

  lemma FlattenMovedEntry(d: string, e: Entry)
    ensures FlattenEntry(Moved(d, e)) == MoveChildren(d, FlattenEntry(e))
  {
    if e.Dir? {
      MoveTwice(d, e.name, Flatten(e.children));
    }
  }

  lemma {:induction false} FlattenMoved(d: string, kids: seq<Entry>)
    ensures Flatten(MoveChildren(d, kids)) == MoveChildren(d, Flatten(kids))
  {
    if kids != [] {
      var m := MoveChildren(d, kids);
      assert m == [Moved(d, kids[0])] + MoveChildren(d, kids[1..]);
      FlattenConcat([Moved(d, kids[0])], MoveChildren(d, kids[1..]));
      assert Flatten([Moved(d, kids[0])]) == FlattenEntry(Moved(d, kids[0])) by {
        assert [Moved(d, kids[0])][1..] == [];
      }
      FlattenMovedEntry(d, kids[0]);
      FlattenMoved(d, kids[1..]);
      MoveChildrenConcat(d, FlattenEntry(kids[0]), Flatten(kids[1..]));
    }
  }

  /** A pass does not change where the files finally end up. */
  lemma {:induction false} FlattenPass(wd: seq<Entry>)
    ensures Flatten(Pass(wd)) == Flatten(wd)
  {
    if wd != [] {
      FlattenConcat(Lift(wd[0]), Pass(wd[1..]));
      FlattenPass(wd[1..]);
      match wd[0]
      case File(_) =>
        assert Flatten(Lift(wd[0])) == FlattenEntry(wd[0]) by {
          assert Lift(wd[0])[1..] == [];
        }
      case Dir(d, kids) =>
        FlattenMoved(d, kids);
    }
  }

  lemma {:induction false} FlattenOfFiles(wd: seq<Entry>)
    requires !HasDir(wd)
    ensures Flatten(wd) == wd
  {
    if wd != [] {
      assert wd[0].File?;
      FlattenOfFiles(wd[1..]);
    }
  }

  /**
    Without `-R`, `exdir` ends with every file of the tree in the working
    directory, renamed by each directory it was in, outermost first.
  */
  lemma {:induction false} ExtractFlattens(wd: seq<Entry>)
    ensures Extract(wd, false) == Flatten(wd)
    decreases MaxHeight(wd)
  {
    var p := Pass(wd);
    FlattenPass(wd);
    if !HasDir(p) {
      FlattenOfFiles(p);
    } else {
      PassLowers(wd);
      HasDirHeight(p);
      ExtractFlattens(p);
    }
  }

  /** What `Flatten` gives is files only, one per file of the tree. */
  lemma {:induction false} FlattenSizes(wd: seq<Entry>)
    ensures |Flatten(wd)| == FileCountAll(wd)
    ensures !HasDir(Flatten(wd))
  {
    if wd != [] {
      FlattenSizes(wd[1..]);
      var h := FlattenEntry(wd[0]);
      match wd[0]
      case File(_) =>
      case Dir(d, kids) =>
        FlattenSizes(kids);
      assert !HasDir(h);
      assert Flatten(wd) == h + Flatten(wd[1..]);
    }
  }

  /** Without `-R` no directory is left and no file is lost. */
  lemma ExtractLeavesOnlyFiles(wd: seq<Entry>)
    ensures !HasDir(Extract(wd, false))
    ensures |Extract(wd, false)| == FileCountAll(wd)
  {
    ExtractFlattens(wd);
    FlattenSizes(wd);
  }

  /** With `-R` the working directory holds the same files, nested one level less. */
  lemma OnePass(wd: seq<Entry>)
    ensures Extract(wd, true) == Pass(wd)
    ensures FileCountAll(Extract(wd, true)) == FileCountAll(wd)
    ensures MaxHeight(Extract(wd, true)) == if MaxHeight(wd) == 0 then 0 else MaxHeight(wd) - 1
  {
    PassKeepsFiles(wd);
    PassLowers(wd);
  }

  // ---------------------------------------------------------------------------
  // The loops of `extract`

  /** The inner loop of a pass: every entry of `directory`, renamed, moved up in listing order. */
  method MoveUp(d: string, kids: seq<Entry>) returns (lifted: seq<Entry>)
    ensures lifted == MoveChildren(d, kids)
  {
    lifted := [];
    for j := 0 to |kids|
      invariant |lifted| == j
      invariant forall k :: 0 <= k < j ==> lifted[k] == Moved(d, kids[k])
    {
      var element := kids[j];
      var newName := Upper(d) + "_ " + element.name;
      lifted := lifted + [element.(name := newName)];
    }
  }

  /** The outer loop of one pass over the listing of the working directory. */
  method ExtractPass(wd: seq<Entry>) returns (r: seq<Entry>)
    ensures r == Pass(wd)
  {
    r := [];
    for i := 0 to |wd|
      invariant r == Pass(wd[..i])
    {
      var entry := wd[i];
      assert wd[..i + 1] == wd[..i] + [entry];
      PassConcat(wd[..i], [entry]);
      assert Pass([entry]) == Lift(entry);
      if entry.File? {
        r := r + [entry];
      } else {
        var lifted := MoveUp(entry.name, entry.children);
        r := r + lifted;
      }
    }
    assert wd[..|wd|] == wd;
  }

  /** One unfolding of `Extract`, with the measure that makes the recursion stop. */
  lemma ExtractUnfold(wd: seq<Entry>, noRecursion: bool)
    ensures Extract(wd, noRecursion)
         == if noRecursion || !HasDir(Pass(wd)) then Pass(wd) else Extract(Pass(wd), noRecursion)
    ensures HasDir(Pass(wd)) ==> MaxHeight(Pass(wd)) < MaxHeight(wd)
  {
    PassLowers(wd);
    HasDirHeight(Pass(wd));
  }

  /** The scan after a pass (main.py:227-231): is any entry of the working directory a directory? */
  method FindDir(wd: seq<Entry>) returns (found: bool)
    ensures found <==> HasDir(wd)
  {
    var i := 0;
    while i < |wd|
      invariant 0 <= i <= |wd|
      invariant forall j :: 0 <= j < i ==> !wd[j].Dir?
    {
      if wd[i].Dir? {
        return true;
      }
      i := i + 1;
    }
    return false;
  }

  /** `extract()`: a pass, then, unless `-R`, another pass when a directory is left. */
  method ExtractDir(wd: seq<Entry>, noRecursion: bool) returns (r: seq<Entry>)
    ensures r == Extract(wd, noRecursion)
    decreases MaxHeight(wd)
  {
    r := ExtractPass(wd);
    ExtractUnfold(wd, noRecursion);
    if noRecursion {
      return;
    }
    var found := FindDir(r);
    if found {
      r := ExtractDir(r, noRecursion);
    }
  }
}
