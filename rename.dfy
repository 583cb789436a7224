/**
  The `rename` command (main.py:237-289) and `get_element_type` (main.py:32-46).
  The command asks for a prefix, previews old and new names of every entry of
  the working directory in a table, and loops on a Y/N/S/C menu until the user
  applies the renames or cancels. The directory listing is a snapshot
  (`Item`s in `iterdir` order); the replies are the lines typed at the prompts.
*/
module Rename {
  import opened Common

  /** What `Path.is_dir`, `Path.is_file` and `Path.is_symlink` answer for an entry. */
  datatype PathInfo = PathInfo(isDir: bool, isFile: bool, isSymlink: bool)

  datatype ElementKind = Directory | File | Symlink | Other

  /** The first test that holds names the kind, in the order main.py tries them. */
  function ElementType(p: PathInfo): (k: ElementKind)
    ensures k == Directory <==> p.isDir
    ensures k == File <==> !p.isDir && p.isFile
    ensures k == Symlink <==> !p.isDir && !p.isFile && p.isSymlink
    ensures k == Other <==> !p.isDir && !p.isFile && !p.isSymlink
  {
    if p.isDir then Directory
    else if p.isFile then File
    else if p.isSymlink then Symlink
    else Other
  }

  datatype Item = Item(name: string, info: PathInfo)

  /** The naming rule shared by the preview (main.py:253-256) and the renaming (main.py:283-286). */
  function NewName(prefix: string, noSpace: bool, name: string): string
  {
    prefix + (if noSpace then "" else " ") + name
  }

  /** The new name is the prefix, one space unless `--no-space`, then the old name. */
  lemma NewNameShape(prefix: string, noSpace: bool, name: string)
    ensures var n := NewName(prefix, noSpace, name);
      && |n| == |prefix| + |name| + (if noSpace then 0 else 1)
      && n[..|prefix|] == prefix
      && n[|n| - |name|..] == name
      && (!noSpace ==> n[|prefix|] == ' ')
  {
  }

  /** Two entries with different names never get the same new name. */
  lemma NewNameInjective(prefix: string, noSpace: bool, a: string, b: string)
    requires NewName(prefix, noSpace, a) == NewName(prefix, noSpace, b)
    ensures a == b
  {
    var n := NewName(prefix, noSpace, a);
    var k := |prefix| + (if noSpace then 0 else 1);
    assert n[k..] == a;
    assert NewName(prefix, noSpace, b)[k..] == b;
  }

  /** One row of the preview table: ID, old name, new name, type. */
  datatype Row = Row(id: nat, oldName: string, newName: string, kind: ElementKind)

  /** The table built by `enumerate(Path.iterdir(WORKING_DIR), 1)` (main.py:251-259). */
  function PreviewRows(prefix: string, noSpace: bool, items: seq<Item>): (rows: seq<Row>)
    ensures |rows| == |items|
    ensures forall k :: 0 <= k < |items| ==>
      rows[k] == Row(k + 1, items[k].name, NewName(prefix, noSpace, items[k].name), ElementType(items[k].info))
  {
    if items == [] then []
    else
      var last := items[|items| - 1];
      PreviewRows(prefix, noSpace, items[..|items| - 1])
        + [Row(|items|, last.name, NewName(prefix, noSpace, last.name), ElementType(last.info))]
  }

  // ---------------------------------------------------------------------------
  // The menu loop (main.py:243-280)

  /** `prefix`, `change_prefix` and `no_space` between two prompts. */
  datatype Dialog = Dialog(prefix: string, changePrefix: bool, noSpace: bool)

  datatype Step = Next(next: Dialog) | Apply(prefix: string, noSpace: bool) | Cancel

  datatype DialogOutcome =
    | Applied(prefix: string, noSpace: bool)
    | Cancelled    // any other first character: "Aborting" and sys.exit()
    | EndOfInput   // click.prompt meets the end of input and aborts

  /** `change_prefix = True` and `prefix = None`; the empty string is never shown, since the prefix is asked first. */
  function Initial(noSpace: bool): Dialog
  {
    Dialog("", true, noSpace)
  }

  /**
    One line of input. `click.prompt` asks again on an empty line. While a prefix
    is wanted the line is the prefix; otherwise its first character, case-folded
    (`.casefold()`, on ASCII letters), picks the menu entry.
  */
  function StepDialog(d: Dialog, line: string): Step
  {
    if line == [] then Next(d)
    else if d.changePrefix then Next(Dialog(line, false, d.noSpace))
    else if AsciiLower(line[0]) == 'y' then Apply(d.prefix, d.noSpace)
    else if AsciiLower(line[0]) == 'n' then Next(d.(changePrefix := true))
    else if AsciiLower(line[0]) == 's' then Next(d.(noSpace := !d.noSpace))
    else Cancel
  }

  function RunDialog(d: Dialog, lines: seq<string>): DialogOutcome
    decreases |lines|
  {
    if lines == [] then EndOfInput
    else match StepDialog(d, lines[0])
      case Next(d') => RunDialog(d', lines[1..])
      case Apply(p, ns) => Applied(p, ns)
      case Cancel => Cancelled
  }

  /** 'y' at the menu applies the renames with the current prefix and spacing. */
  lemma DialogYes(d: Dialog, line: string, rest: seq<string>)
    requires !d.changePrefix && line != [] && AsciiLower(line[0]) == 'y'
    ensures RunDialog(d, [line] + rest) == Applied(d.prefix, d.noSpace)
  {
  }

  /** 'n' asks for the prefix again and then shows the menu with the new one. */
  lemma DialogNewPrefix(d: Dialog, line: string, prefix: string, rest: seq<string>)
    requires !d.changePrefix && line != [] && AsciiLower(line[0]) == 'n' && prefix != []
    ensures RunDialog(d, [line, prefix] + rest) == RunDialog(d.(prefix := prefix), rest)
  {
    assert ([line, prefix] + rest)[1..] == [prefix] + rest;
    assert ([prefix] + rest)[1..] == rest;
  }

  /** Toggling `--no-space` twice restores the dialog. */
  lemma DialogToggleTwice(d: Dialog, a: string, b: string, rest: seq<string>)
    requires !d.changePrefix && a != [] && b != [] && AsciiLower(a[0]) == 's' && AsciiLower(b[0]) == 's'
    ensures RunDialog(d, [a, b] + rest) == RunDialog(d, rest)
  {
    assert ([a, b] + rest)[1..] == [b] + rest;
    assert ([b] + rest)[1..] == rest;
  }

  /** Any other first character aborts, and nothing is renamed. */
  lemma DialogCancel(d: Dialog, line: string, rest: seq<string>)
    requires !d.changePrefix && line != []
    requires AsciiLower(line[0]) != 'y' && AsciiLower(line[0]) != 'n' && AsciiLower(line[0]) != 's'
    ensures RunDialog(d, [line] + rest) == Cancelled
  {
  }

  /** The prefix that is applied is one the user typed, and never empty. */
  lemma {:induction false} AppliedPrefixWasTyped(d: Dialog, lines: seq<string>)
    requires RunDialog(d, lines).Applied?
    ensures var p := RunDialog(d, lines).prefix;
      (!d.changePrefix && p == d.prefix) || (p in lines && p != [])
    decreases |lines|
  {
    if StepDialog(d, lines[0]).Next? {
      AppliedPrefixWasTyped(StepDialog(d, lines[0]).next, lines[1..]);
    }
  }

  lemma InitialPrefixWasTyped(noSpace: bool, lines: seq<string>)
    requires RunDialog(Initial(noSpace), lines).Applied?
    ensures RunDialog(Initial(noSpace), lines).prefix in lines
    ensures RunDialog(Initial(noSpace), lines).prefix != []
  {
    AppliedPrefixWasTyped(Initial(noSpace), lines);
  }

  /** The `while True` loop, one input line per iteration. */
  method RenameDialog(noSpace: bool, lines: seq<string>) returns (outcome: DialogOutcome)
    ensures outcome == RunDialog(Initial(noSpace), lines)
  {
    var prefix, changePrefix, ns := "", true, noSpace;
    var i := 0;
    while i < |lines|
      invariant 0 <= i <= |lines|
      invariant RunDialog(Dialog(prefix, changePrefix, ns), lines[i..]) == RunDialog(Initial(noSpace), lines)
    {
      var line := lines[i];
      assert lines[i..][0] == line && lines[i..][1..] == lines[i + 1..];
      i := i + 1;
      if line == [] {
        continue;
      }
      if changePrefix {
        prefix, changePrefix := line, false;
        continue;
      }
      var choice := AsciiLower(line[0]);
      if choice == 'y' {
        return Applied(prefix, ns);
      } else if choice == 'n' {
        changePrefix := true;
      } else if choice == 's' {
        ns := !ns;
      } else {
        return Cancelled;
      }
    }
    return EndOfInput;
  }

  /** The renaming loop (main.py:282-289), over the same listing the preview showed. */
  method ApplyRenames(prefix: string, noSpace: bool, items: seq<Item>) returns (renamed: seq<string>)
    ensures |renamed| == |items|
    ensures forall k :: 0 <= k < |items| ==> renamed[k] == PreviewRows(prefix, noSpace, items)[k].newName
  {
    renamed := [];
    for i := 0 to |items|
      invariant |renamed| == i
      invariant forall k :: 0 <= k < i ==> renamed[k] == NewName(prefix, noSpace, items[k].name)
    {
      var newName := if noSpace then prefix + items[i].name else prefix + " " + items[i].name;
      renamed := renamed + [newName];
    }
  }

  /** The whole command: the entries are renamed, as previewed, exactly when the dialog ends with 'y'. */
  method RenameCommand(noSpace: bool, lines: seq<string>, items: seq<Item>) returns (renamed: seq<string>, done: bool)
    ensures done <==> RunDialog(Initial(noSpace), lines).Applied?
    ensures done ==> |renamed| == |items| && forall k :: 0 <= k < |items| ==>
      var o := RunDialog(Initial(noSpace), lines);
      renamed[k] == PreviewRows(o.prefix, o.noSpace, items)[k].newName
    ensures !done ==> renamed == []
  {
    var outcome := RenameDialog(noSpace, lines);
    if outcome.Applied? {
      renamed := ApplyRenames(outcome.prefix, outcome.noSpace, items);
      done := true;
    } else {
      renamed, done := [], false;
    }
  }
}
