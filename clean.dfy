/**
  The `clean-filenames` command (main.py:292-314). For every entry of the
  working directory it replaces, in the stem, each character outside
  `[a-zäöüßA-ZÄÖÜ0-9_-]` by `_`, then applies the seven umlaut substitutions one
  after the other with `re.sub`, and renames the entry to the new stem with its
  old suffix. Python strings are sequences of code points, as Dafny strings are.
*/
module CleanNames {
  import opened Common

  /** The characters allowed in a cleaned name: ASCII letters and digits, `_` and `-`. */
  predicate IsPlain(c: char)
  {
    'a' <= c <= 'z' || 'A' <= c <= 'Z' || '0' <= c <= '9' || c == '_' || c == '-'
  }

  predicate IsUmlaut(c: char)
  {
    c == 'ä' || c == 'ö' || c == 'ü' || c == 'ß' || c == 'Ä' || c == 'Ö' || c == 'Ü'
  }

  /** The `substitutions` dictionary, in its insertion order (main.py:298-306). */
  const Substitutions: seq<(char, string)> :=
    [('ä', "ae"), ('ö', "oe"), ('ü', "ue"), ('ß', "ss"), ('Ä', "Ae"), ('Ö', "Oe"), ('Ü', "Ue")]

  /** The first replacement `subs` gives for `c`. */
  function Lookup(c: char, subs: seq<(char, string)>): Option<string>
  {
    if subs == [] then None else if subs[0].0 == c then Some(subs[0].1) else Lookup(c, subs[1..])
  }

  // ---------------------------------------------------------------------------
  // The code as written: a regular expression, then one re.sub per umlaut

  /** `re.sub(r"[^a-zäöüßA-ZÄÖÜ0-9_-]", '_', stem)`. */
  function MaskForeign(s: string): (r: string)
    ensures |r| == |s|
    ensures forall i :: 0 <= i < |s| ==> r[i] == if IsPlain(s[i]) || IsUmlaut(s[i]) then s[i] else '_'
  {
    if s == [] then [] else [if IsPlain(s[0]) || IsUmlaut(s[0]) then s[0] else '_'] + MaskForeign(s[1..])
  }

  /** `re.sub(pattern, replacement, s)` for a one-character pattern. */
  function ReplaceAll(s: string, pattern: char, replacement: string): string
  {
    if s == [] then [] else (if s[0] == pattern then replacement else [s[0]]) + ReplaceAll(s[1..], pattern, replacement)
  }

  /** `name` after the first `k` substitutions have run, character by character. */
  function SubstitutedChar(c: char, k: nat): string
    requires k <= |Substitutions|
  {
    match Lookup(c, Substitutions[..k])
    case Some(r) => r
    case None => [c]
  }

  function SubstitutedPrefix(s: string, k: nat): string
    requires k <= |Substitutions|
  {
    if s == [] then [] else SubstitutedChar(s[0], k) + SubstitutedPrefix(s[1..], k)
  }

  // ---------------------------------------------------------------------------
  // The reference: each character cleaned on its own

  function CleanChar(c: char): string
  {
    if IsPlain(c) then [c]
    else match Lookup(c, Substitutions)
      case Some(r) => r
      case None => "_"
  }

  function Clean(s: string): string
  {
    if s == [] then [] else CleanChar(s[0]) + Clean(s[1..])
  }

  function CountUmlauts(s: string): nat
  {
    if s == [] then 0 else (if IsUmlaut(s[0]) then 1 else 0) + CountUmlauts(s[1..])
  }

  /** The umlauts are exactly the characters the table has a replacement for, and each replacement is two plain characters. */
  lemma LookupUmlaut(c: char)
    ensures Lookup(c, Substitutions).Some? <==> IsUmlaut(c)
    ensures Lookup(c, Substitutions).Some? ==>
      var r := Lookup(c, Substitutions).value; |r| == 2 && IsPlain(r[0]) && IsPlain(r[1])
  {
    var subs := Substitutions;
    if Lookup(c, subs).Some? {
      LookupFound(c, subs);
      var j :| 0 <= j < |subs| && subs[j].0 == c && subs[j].1 == Lookup(c, subs).value;
      assert IsUmlaut(subs[j].0) && |subs[j].1| == 2 && IsPlain(subs[j].1[0]) && IsPlain(subs[j].1[1]);
    }
    if IsUmlaut(c) {
      var j :| 0 <= j < |subs| && subs[j].0 == c;
      LookupMember(c, subs, j);
    }
  }

  lemma {:induction false} LookupSnoc(c: char, k: nat)
    requires k < |Substitutions|
    ensures Lookup(c, Substitutions[..k + 1]) ==
      if Lookup(c, Substitutions[..k]).Some? then Lookup(c, Substitutions[..k])
      else if Substitutions[k].0 == c then Some(Substitutions[k].1)
      else None
  {
    LookupSnocAny(c, Substitutions[..k + 1]);
    assert Substitutions[..k + 1][..k] == Substitutions[..k];
  }

  lemma {:induction false} LookupSnocAny(c: char, subs: seq<(char, string)>)
    requires subs != []
    ensures Lookup(c, subs) ==
      var init := subs[..|subs| - 1];
      if Lookup(c, init).Some? then Lookup(c, init)
      else if subs[|subs| - 1].0 == c then Some(subs[|subs| - 1].1)
      else None
  {
    if |subs| > 1 {
      LookupSnocAny(c, subs[1..]);
      assert subs[1..][..|subs| - 2] == subs[..|subs| - 1][1..];
    }
  }

  lemma {:induction false} ReplaceAllConcat(a: string, b: string, p: char, r: string)
    ensures ReplaceAll(a + b, p, r) == ReplaceAll(a, p, r) + ReplaceAll(b, p, r)
  {
    if a != [] {
      assert (a + b)[0] == a[0];
      assert (a + b)[1..] == a[1..] + b;
      ReplaceAllConcat(a[1..], b, p, r);
    } else {
      assert a + b == b;
    }
  }

  lemma {:induction false} ReplaceAllNoMatch(s: string, p: char, r: string)
    requires forall i :: 0 <= i < |s| ==> s[i] != p
    ensures ReplaceAll(s, p, r) == s
  {
    if s != [] {
      ReplaceAllNoMatch(s[1..], p, r);
    }
  }

  /** One more `re.sub` turns the first `k` substitutions into the first `k + 1`. */
  lemma {:induction false} SubstituteStep(s: string, k: nat)
    requires k < |Substitutions|
    ensures ReplaceAll(SubstitutedPrefix(s, k), Substitutions[k].0, Substitutions[k].1) == SubstitutedPrefix(s, k + 1)
  {
    if s != [] {
      var p, r := Substitutions[k].0, Substitutions[k].1;
      ReplaceAllConcat(SubstitutedChar(s[0], k), SubstitutedPrefix(s[1..], k), p, r);
      SubstituteStep(s[1..], k);
      LookupSnoc(s[0], k);
      match Lookup(s[0], Substitutions[..k])
      case Some(x) =>
        LookupPrefixPlain(s[0], k);
        ReplaceAllNoMatch(x, p, r);
      case None =>
        assert ReplaceAll([s[0]], p, r) == (if s[0] == p then r else [s[0]]) + ReplaceAll([], p, r);
    }
  }

  /** A replacement is made of plain characters, which are never patterns. */
  lemma LookupPrefixPlain(c: char, k: nat)
    requires k <= |Substitutions| && Lookup(c, Substitutions[..k]).Some?
    ensures forall i :: 0 <= i < |Lookup(c, Substitutions[..k]).value| ==>
      IsPlain(Lookup(c, Substitutions[..k]).value[i]) && !IsUmlaut(Lookup(c, Substitutions[..k]).value[i])
  {
    var subs := Substitutions[..k];
    assert forall j :: 0 <= j < |subs| ==>
      (IsUmlaut(subs[j].0) && |subs[j].1| == 2 && IsPlain(subs[j].1[0]) && IsPlain(subs[j].1[1]));
    LookupFound(c, subs);
  }

  lemma {:induction false} LookupFound(c: char, subs: seq<(char, string)>)
    requires Lookup(c, subs).Some?
    ensures exists j :: 0 <= j < |subs| && subs[j].0 == c && subs[j].1 == Lookup(c, subs).value
  {
    if subs[0].0 != c {
      LookupFound(c, subs[1..]);
      var j :| 0 <= j < |subs[1..]| && subs[1..][j].0 == c && subs[1..][j].1 == Lookup(c, subs[1..]).value;
      assert subs[j + 1].0 == c && subs[j + 1].1 == Lookup(c, subs).value;
    }
  }

  lemma {:induction false} LookupMember(c: char, subs: seq<(char, string)>, j: nat)
    requires j < |subs| && subs[j].0 == c
    ensures Lookup(c, subs).Some?
  {
    if subs[0].0 != c {
      LookupMember(c, subs[1..], j - 1);
    }
  }

  /** Before any substitution the name is the masked stem itself. */
  lemma {:induction false} SubstitutedNothing(s: string)
    ensures SubstitutedPrefix(s, 0) == s
  {
    if s != [] {
      SubstitutedNothing(s[1..]);
    }
  }

  /** After all seven substitutions the masked stem is the reference cleaning of the original. */
  lemma {:induction false} MaskThenSubstitute(s: string)
    ensures SubstitutedPrefix(MaskForeign(s), |Substitutions|) == Clean(s)
  {
    if s != [] {
      assert Substitutions[..|Substitutions|] == Substitutions;
      var m := MaskForeign(s);
      assert m[1..] == MaskForeign(s[1..]);
      MaskThenSubstitute(s[1..]);
      LookupUmlaut(s[0]);
      LookupUmlaut('_');
    }
  }

  // ---------------------------------------------------------------------------
  // Properties of the cleaning

  /** A cleaned name holds only ASCII letters, digits, `_` and `-`. */
  lemma {:induction false} CleanIsPlain(s: string)
    ensures forall i :: 0 <= i < |Clean(s)| ==> IsPlain(Clean(s)[i])
  {
    if s != [] {
      CleanIsPlain(s[1..]);
      LookupUmlaut(s[0]);
      var head := CleanChar(s[0]);
      assert forall i :: 0 <= i < |head| ==> IsPlain(head[i]);
      assert Clean(s) == head + Clean(s[1..]);
    }
  }

  /** Each umlaut adds exactly one character; every other character gives exactly one. */
  lemma {:induction false} CleanLength(s: string)
    ensures |Clean(s)| == |s| + CountUmlauts(s)
  {
    if s != [] {
      CleanLength(s[1..]);
      LookupUmlaut(s[0]);
    }
  }

  /** A name already made of plain characters is left as it is. */
  lemma {:induction false} CleanKeepsPlain(s: string)
    requires forall i :: 0 <= i < |s| ==> IsPlain(s[i])
    ensures Clean(s) == s
  {
    if s != [] {
      CleanKeepsPlain(s[1..]);
    }
  }

  /** Cleaning twice is cleaning once. */
  lemma CleanIdempotent(s: string)
    ensures Clean(Clean(s)) == Clean(s)
  {
    CleanIsPlain(s);
    CleanKeepsPlain(Clean(s));
  }

  /** Each character that is neither plain nor an umlaut becomes exactly one `_`. */
  lemma CleanForeignChar(c: char)
    requires !IsPlain(c) && !IsUmlaut(c)
    ensures Clean([c]) == "_"
  {
    LookupUmlaut(c);
  }

  // ---------------------------------------------------------------------------
  // The command

  /** The new stem for one entry (main.py:309-311): the regular expression, then the substitution loop. */
  method CleanStem(stem: string) returns (name: string)
    ensures name == Clean(stem)
  {
    name := MaskForeign(stem);
    SubstitutedNothing(name);
    for k := 0 to |Substitutions|
      invariant name == SubstitutedPrefix(MaskForeign(stem), k)
    {
      SubstituteStep(MaskForeign(stem), k);
      name := ReplaceAll(name, Substitutions[k].0, Substitutions[k].1);
    }
    MaskThenSubstitute(stem);
  }

  /** The loop over the working directory (main.py:308-314): every stem gets its cleaned name. */
  method CleanFilenames(stems: seq<string>) returns (names: seq<string>)
    ensures |names| == |stems|
    ensures forall i :: 0 <= i < |stems| ==> names[i] == Clean(stems[i])
  {
    names := [];
    for i := 0 to |stems|
      invariant |names| == i
      invariant forall j :: 0 <= j < i ==> names[j] == Clean(stems[j])
    {
      var name := CleanStem(stems[i]);
      names := names + [name];
    }
  }
}
