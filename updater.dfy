/**
  The self-updater script (update.py). It decodes the target directory from its
  hex argument, streams the release binary into `lista-tools.exe.new` while
  drawing a 50-cell progress bar, and then swaps the files with two renames and
  a removal under one catch-all handler.

  The target directory is a `TargetDir` object whose only field maps each of the
  three slots to the bytes of the file there; a slot that is not a key does not
  exist. The network is an input (`Response`), and every file operation that may
  fail for reasons outside the model (permissions, a file in use) takes an
  injected failure flag.
*/
module Updater {
  import opened Common
  import Hex

  /** `lista-tools.exe`, `lista-tools.exe.old` and `lista-tools.exe.new` in the target directory. */
  datatype Slot = Current | Old | New

  type Directory = map<Slot, Bytes>

  /** The lines the script prints, in order. */
  datatype Message =
    | Downloading
    | ProgressLine(done: int)
    | DownloadComplete
    | RenamingCurrentToOld
    | RenamingNewToCurrent
    | DeletingOld
    | UpdateComplete
    | InstallError

  /**
    What the release server delivers: either `requests.get` raises, or a reply
    with the parsed `content-length` header (`None` when it is missing or not an
    integer, so that `int(...)` raises), the chunks `iter_content` yields, and
    whether the stream then breaks off with an exception.
  */
  datatype Response =
    | Unreachable
    | Reply(contentLength: Option<int>, chunks: seq<Bytes>, broken: bool)

  /** Exceptions that escape the script. None of the download's is caught, so the swap never starts. */
  datatype Crash = BadArgument | ConnectionError | BadContentLength | ZeroDivision | StreamBroken

  /** Failures injected into each step of the swap, on top of a missing source or an existing destination. */
  datatype Faults = Faults(renameCurrent: bool, renameNew: bool, removeOld: bool)

  // ---------------------------------------------------------------------------
  // The download (update.py:13-22)

  /** What `.new` holds when the download stops: the file is opened with `'wb'`, so earlier content is gone. */
  function Received(r: Response): Bytes
  {
    match r
    case Unreachable => []
    case Reply(len, chunks, _) =>
      if len.None? then []
      else if len.value == 0 && chunks != [] then chunks[0]
      else Concat(chunks)
  }

  /** The exception that ends the download, if any. */
  function DownloadCrash(r: Response): Option<Crash>
  {
    match r
    case Unreachable => Some(ConnectionError)
    case Reply(len, chunks, broken) =>
      if len.None? then Some(BadContentLength)
      else if len.value == 0 && chunks != [] then Some(ZeroDivision)
      else if broken then Some(StreamBroken)
      else None
  }

  /**
    `int(50 * bytes_done / total_length)`: Python's `int` truncates toward zero.
    The quotient is taken exactly, where Python first rounds it to a float.
  */
  function BarCells(bytesDone: nat, total: int): (done: int)
    requires total != 0
    ensures 0 < total ==> done * total <= 50 * bytesDone < (done + 1) * total
    ensures total < 0 ==> done <= 0
    ensures 0 < total && bytesDone <= total ==> 0 <= done <= 50
  {
    if total > 0 then
      DivFloor(50 * bytesDone, total);
      if bytesDone <= total then DivAtMost(50 * bytesDone, total, 50); 50 * bytesDone / total
      else 50 * bytesDone / total
    else
      DivFloor(50 * bytesDone, -total);
      -(50 * bytesDone / -total)
  }

  /** Integer division of a non-negative number rounds down. */
  lemma DivFloor(n: nat, t: int)
    requires t > 0
    ensures 0 <= n / t
    ensures (n / t) * t <= n < (n / t + 1) * t
  {
    assert n == (n / t) * t + n % t;
  }

  lemma LessAfterScaling(x: int, y: int, t: int)
    requires t > 0 && x * t < y * t
    ensures x < y
  {
  }

  lemma DivAtMost(n: nat, t: int, m: int)
    requires t > 0 && n <= m * t
    ensures n / t <= m
  {
    DivFloor(n, t);
    LessAfterScaling(n / t, m + 1, t);
  }

  /** `'═' * done + ' ' * (50 - done)`, where a negative count repeats nothing. */
  function Bar(done: int): (bar: string)
    ensures |bar| == (if done < 0 then 50 - done else if done > 50 then done else 50)
    ensures forall i :: 0 <= i < |bar| ==> bar[i] == (if i < done then '═' else ' ')
  {
    Repeat('═', done) + Repeat(' ', 50 - done)
  }

  /**
    While the body is no longer than the announced length, every bar the download
    draws is 50 cells wide, the count of filled cells first.
  */
  lemma DrawnBarsFit(len: nat, chunks: seq<Bytes>, broken: bool, k: nat)
    requires 0 < len && |Concat(chunks)| <= len
    requires k < |Frames(Reply(Some(len), chunks, broken))|
    ensures var done, bar := Frames(Reply(Some(len), chunks, broken))[k], Bar(Frames(Reply(Some(len), chunks, broken))[k]);
      && 0 <= done <= 50 && |bar| == 50
      && (forall i :: 0 <= i < done ==> bar[i] == '═')
      && (forall i :: done <= i < 50 ==> bar[i] == ' ')
  {
    ProgressBounded(chunks, len, |chunks|);
  }

  /** The bar counts drawn after each of the first `i` chunks. */
  function Progress(chunks: seq<Bytes>, total: int, i: nat): seq<int>
    requires total != 0 && i <= |chunks|
  {
    if i == 0 then [] else Progress(chunks, total, i - 1) + [BarCells(|Concat(chunks[..i])|, total)]
  }

  /** All bar counts the download draws before it stops. */
  function Frames(r: Response): seq<int>
  {
    match r
    case Unreachable => []
    case Reply(len, chunks, _) =>
      if len.None? || len.value == 0 then [] else Progress(chunks, len.value, |chunks|)
  }

  function ProgressMessages(frames: seq<int>): (m: seq<Message>)
    ensures |m| == |frames|
    ensures forall k :: 0 <= k < |m| ==> m[k] == ProgressLine(frames[k])
  {
    if frames == [] then [] else [ProgressLine(frames[0])] + ProgressMessages(frames[1..])
  }

  lemma BarCellsMonotone(b1: nat, b2: nat, total: int)
    requires 0 < total && b1 <= b2
    ensures BarCells(b1, total) <= BarCells(b2, total)
  {
    var d1, d2 := BarCells(b1, total), BarCells(b2, total);
    LessAfterScaling(d1, d2 + 1, total);
  }

  /** While no more than `total` bytes arrive, every count is in [0, 50] and no count is below an earlier one. */
  lemma {:induction false} ProgressBounded(chunks: seq<Bytes>, total: int, i: nat)
    requires 0 < total && i <= |chunks| && |Concat(chunks)| <= total
    ensures |Progress(chunks, total, i)| == i
    ensures forall k :: 0 <= k < i ==> 0 <= Progress(chunks, total, i)[k] <= 50
    ensures forall k, l :: 0 <= k <= l < i ==> Progress(chunks, total, i)[k] <= Progress(chunks, total, i)[l]
  {
    if i > 0 {
      ProgressBounded(chunks, total, i - 1);
      var p := Progress(chunks, total, i - 1);
      assert chunks[..|chunks|] == chunks;
      ConcatPrefix(chunks, i, |chunks|);
      var last := BarCells(|Concat(chunks[..i])|, total);
      if i > 1 {
        ConcatPrefix(chunks, i - 1, i);
        BarCellsMonotone(|Concat(chunks[..i - 1])|, |Concat(chunks[..i])|, total);
        assert p[i - 2] == BarCells(|Concat(chunks[..i - 1])|, total) by {
          assert Progress(chunks, total, i - 1) == Progress(chunks, total, i - 2) + [BarCells(|Concat(chunks[..i - 1])|, total)];
        }
      }
    }
  }

  // ---------------------------------------------------------------------------
  // The swap (update.py:25-38)

  /**
    `os.rename(src, dst)`: fails when the source is missing, when the destination
    exists and the platform does not overwrite (Windows), or by an injected fault.
  */
  function RenameSlot(d: Directory, src: Slot, dst: Slot, fault: bool, overwrites: bool): (r: Option<Directory>)
    requires src != dst
    ensures r.Some? <==> !fault && src in d && (overwrites || dst !in d)
    ensures r.Some? ==> src !in r.value && dst in r.value && r.value[dst] == d[src]
    ensures r.Some? ==> forall s :: s != src && s != dst ==> (s in r.value <==> s in d) && (s in d ==> r.value[s] == d[s])
  {
    if !fault && src in d && (overwrites || dst !in d) then Some(d[dst := d[src]] - {src}) else None
  }

  /** `os.remove(path)`: fails when the file is missing or by an injected fault. */
  function RemoveSlot(d: Directory, s: Slot, fault: bool): (r: Option<Directory>)
    ensures r.Some? <==> !fault && s in d
    ensures r.Some? ==> s !in r.value && forall t :: t != s ==> (t in r.value <==> t in d) && (t in d ==> r.value[t] == d[t])
  {
    if !fault && s in d then Some(d - {s}) else None
  }

  datatype SwapResult = SwapResult(dir: Directory, log: seq<Message>)

  /** The `try` block and its handler: the first step that fails skips the rest and prints the one error message. */
  function Swap(d: Directory, f: Faults, overwrites: bool): SwapResult
  {
    var start := [DownloadComplete, RenamingCurrentToOld];
    match RenameSlot(d, Current, Old, f.renameCurrent, overwrites)
    case None => SwapResult(d, start + [InstallError])
    case Some(d1) =>
      match RenameSlot(d1, New, Current, f.renameNew, overwrites)
      case None => SwapResult(d1, start + [RenamingNewToCurrent, InstallError])
      case Some(d2) =>
        match RemoveSlot(d2, Old, f.removeOld)
        case None => SwapResult(d2, start + [RenamingNewToCurrent, DeletingOld, InstallError])
        case Some(d3) => SwapResult(d3, start + [RenamingNewToCurrent, DeletingOld, UpdateComplete])
  }

  /** Every step of the swap can succeed. */
  predicate SwapSucceeds(d: Directory, f: Faults, overwrites: bool)
  {
    !f.renameCurrent && !f.renameNew && !f.removeOld
    && Current in d && New in d && (overwrites || Old !in d)
  }

  /** If every step succeeds, only `current` is left and it holds the downloaded bytes. */
  lemma SwapCommits(d: Directory, f: Faults, overwrites: bool)
    requires SwapSucceeds(d, f, overwrites)
    ensures Swap(d, f, overwrites).dir == map[Current := d[New]]
    ensures Swap(d, f, overwrites).log[|Swap(d, f, overwrites).log| - 1] == UpdateComplete
  {
    var d1 := RenameSlot(d, Current, Old, false, overwrites).value;
    var d2 := RenameSlot(d1, New, Current, false, overwrites).value;
    var d3 := RemoveSlot(d2, Old, false).value;
    assert d3.Keys == {Current} by {
      forall s ensures s in d3 <==> s == Current {
        if s == New {} else if s == Old {} else {}
      }
    }
  }

  /** When the first rename fails (for example because `current` is missing), no file changes. */
  lemma SwapFirstRenameFails(d: Directory, f: Faults, overwrites: bool)
    requires f.renameCurrent || Current !in d || (!overwrites && Old in d)
    ensures Swap(d, f, overwrites) == SwapResult(d, [DownloadComplete, RenamingCurrentToOld, InstallError])
  {
  }

  /**
    When the first rename succeeds and the second fails, `old` holds the previous
    binary, `current` is absent and `new` is untouched; the message is the generic one.
  */
  lemma SwapSecondRenameFails(d: Directory, f: Faults, overwrites: bool)
    requires !f.renameCurrent && Current in d && (overwrites || Old !in d)
    requires f.renameNew || New !in d
    ensures var s := Swap(d, f, overwrites);
      && Current !in s.dir
      && Old in s.dir && s.dir[Old] == d[Current]
      && (New in s.dir <==> New in d) && (New in d ==> s.dir[New] == d[New])
      && s.log == [DownloadComplete, RenamingCurrentToOld, RenamingNewToCurrent, InstallError]
  {
  }

  /** When only the removal fails, `current` already holds the new binary, `old` lingers and the error is still reported. */
  lemma SwapRemoveFails(d: Directory, f: Faults, overwrites: bool)
    requires !f.renameCurrent && !f.renameNew && f.removeOld
    requires Current in d && New in d && (overwrites || Old !in d)
    ensures var s := Swap(d, f, overwrites);
      && s.dir == map[Current := d[New], Old := d[Current]]
      && s.log[|s.log| - 1] == InstallError
      && UpdateComplete !in s.log
  {
    var s := Swap(d, f, overwrites);
    assert s.dir.Keys == {Current, Old} by {
      forall t ensures t in s.dir <==> t == Current || t == Old {
        if t == New {} else {}
      }
    }
  }

  /**
    The swap ends with the completion prompt exactly when every step succeeds;
    every failure, whichever step it hits, ends with the same generic message.
  */
  lemma SwapReport(d: Directory, f: Faults, overwrites: bool)
    ensures var log := Swap(d, f, overwrites).log;
      && |log| >= 3
      && (UpdateComplete in log <==> SwapSucceeds(d, f, overwrites))
      && log[|log| - 1] == (if SwapSucceeds(d, f, overwrites) then UpdateComplete else InstallError)
  {
  }

  /**
    No outcome loses the new binary: it ends in `current` or stays in `new`. A swap
    that fails somewhere also keeps the previous binary, in `current` or in `old`;
    only a complete swap deletes it (`SwapCommits`).
  */
  lemma SwapKeepsBinaries(d: Directory, f: Faults, overwrites: bool)
    ensures var s := Swap(d, f, overwrites);
      New in d ==> (Current in s.dir && s.dir[Current] == d[New]) || (New in s.dir && s.dir[New] == d[New])
    ensures var s := Swap(d, f, overwrites);
      Current in d && !SwapSucceeds(d, f, overwrites) ==>
        (Current in s.dir && s.dir[Current] == d[Current]) || (Old in s.dir && s.dir[Old] == d[Current])
  {
  }

  // ---------------------------------------------------------------------------
  // The whole script

  datatype Outcome = Outcome(dir: Directory, log: seq<Message>, crash: Option<Crash>)

  /** The script from its argument to its last line: decode, download, swap. */
  function Script(d: Directory, arg: string, r: Response, f: Faults, overwrites: bool): Outcome
  {
    if Hex.FromHex(arg).None? then Outcome(d, [], Some(BadArgument))
    else
      var d1 := d[New := Received(r)];
      var log1 := [Downloading] + ProgressMessages(Frames(r));
      match DownloadCrash(r)
      case Some(c) => Outcome(d1, log1, Some(c))
      case None =>
        var s := Swap(d1, f, overwrites);
        Outcome(s.dir, log1 + s.log, None)
  }

  /** An argument that is not hexadecimal stops the script before it prints or touches anything. */
  lemma ScriptRejectsArgument(d: Directory, arg: string, r: Response, f: Faults, overwrites: bool)
    requires Hex.FromHex(arg).None?
    ensures Script(d, arg, r, f, overwrites) == Outcome(d, [], Some(BadArgument))
  {
  }

  /**
    An exception during the download is not caught: `.new` holds a prefix of the
    body the server sent, while `current` and `old` are untouched and no swap runs.
  */
  lemma ScriptDownloadFails(d: Directory, arg: string, r: Response, f: Faults, overwrites: bool)
    requires Hex.FromHex(arg).Some? && DownloadCrash(r).Some?
    ensures var o := Script(d, arg, r, f, overwrites);
      && o.crash == DownloadCrash(r)
      && o.dir == d[New := Received(r)]
      && (r.Reply? ==> Received(r) <= Concat(r.chunks))
      && DownloadComplete !in o.log
  {
    if r.Reply? && r.contentLength.Some? && r.contentLength.value == 0 && r.chunks != [] {
      var chunks := r.chunks;
      assert chunks[..|chunks|] == chunks;
      ConcatPrefix(chunks, 1, |chunks|);
      assert chunks[..1][..0] == chunks[..0];
      assert Concat(chunks[..1]) == chunks[0];
    }
    var log := Script(d, arg, r, f, overwrites).log;
    assert log == [Downloading] + ProgressMessages(Frames(r));
    assert forall k :: 0 <= k < |log| ==> log[k] != DownloadComplete;
  }

  /**
    A good argument, a complete download of a non-empty announced length and a
    swap without faults leave exactly one file: `current`, holding the body.
  */
  lemma ScriptInstalls(d: Directory, arg: string, chunks: seq<Bytes>, total: int, f: Faults, overwrites: bool)
    requires Hex.FromHex(arg).Some? && total != 0
    requires !f.renameCurrent && !f.renameNew && !f.removeOld
    requires Current in d && (overwrites || Old !in d)
    ensures var o := Script(d, arg, Reply(Some(total), chunks, false), f, overwrites);
      && o.crash == None
      && o.dir == map[Current := Concat(chunks)]
      && o.log[|o.log| - 1] == UpdateComplete
  {
    var d1 := d[New := Concat(chunks)];
    assert SwapSucceeds(d1, f, overwrites);
    SwapCommits(d1, f, overwrites);
  }

  // ---------------------------------------------------------------------------
  // The script's steps, acting on the directory in place

  class TargetDir {
    var files: Directory

    constructor (files0: Directory)
      ensures files == files0
    {
      files := files0;
    }

    method Rename(src: Slot, dst: Slot, fault: bool, overwrites: bool) returns (ok: bool)
      requires src != dst
      modifies this
      ensures ok == RenameSlot(old(files), src, dst, fault, overwrites).Some?
      ensures files == if ok then RenameSlot(old(files), src, dst, fault, overwrites).value else old(files)
    {
      ok := !fault && src in files && (overwrites || dst !in files);
      if ok {
        files := files[dst := files[src]] - {src};
      }
    }

    method Remove(s: Slot, fault: bool) returns (ok: bool)
      modifies this
      ensures ok == RemoveSlot(old(files), s, fault).Some?
      ensures files == if ok then RemoveSlot(old(files), s, fault).value else old(files)
    {
      ok := !fault && s in files;
      if ok {
        files := files - {s};
      }
    }

    /** The `with open(..., 'wb')` block: the loop keeps `bytesDone` equal to the bytes written. */
    method Download(r: Response) returns (crash: Option<Crash>, frames: seq<int>)
      modifies this
      ensures files == old(files)[New := Received(r)]
      ensures crash == DownloadCrash(r) && frames == Frames(r)
    {
      files := files[New := []];
      frames := [];
      if r.Unreachable? {
        return Some(ConnectionError), frames;
      }
      if r.contentLength.None? {
        return Some(BadContentLength), frames;
      }
      var total := r.contentLength.value;
      var chunks := r.chunks;
      var bytesDone := 0;
      var i := 0;
      while i < |chunks|
        invariant 0 <= i <= |chunks|
        invariant total == 0 ==> i == 0 && frames == []
        invariant bytesDone == |Concat(chunks[..i])|
        invariant files == old(files)[New := Concat(chunks[..i])]
        invariant total != 0 ==> frames == Progress(chunks, total, i)
      {
        assert chunks[..i + 1][..i] == chunks[..i];
        bytesDone := bytesDone + |chunks[i]|;
        files := files[New := files[New] + chunks[i]];
        if total == 0 {
          assert i == 0 && Concat(chunks[..0]) == [];
          assert files[New] == chunks[0];
          return Some(ZeroDivision), [];
        }
        frames := frames + [BarCells(bytesDone, total)];
        i := i + 1;
      }
      assert chunks[..i] == chunks;
      if r.broken {
        return Some(StreamBroken), frames;
      }
      return None, frames;
    }

    /** The `try` block (update.py:25-38): each failure jumps to the handler. */
    method Install(f: Faults, overwrites: bool) returns (log: seq<Message>)
      modifies this
      ensures files == Swap(old(files), f, overwrites).dir
      ensures log == Swap(old(files), f, overwrites).log
    {
      log := [DownloadComplete, RenamingCurrentToOld];
      var ok := Rename(Current, Old, f.renameCurrent, overwrites);
      if !ok {
        return log + [InstallError];
      }
      log := log + [RenamingNewToCurrent];
      ok := Rename(New, Current, f.renameNew, overwrites);
      if !ok {
        return log + [InstallError];
      }
      log := log + [DeletingOld];
      ok := Remove(Old, f.removeOld);
      if !ok {
        return log + [InstallError];
      }
      log := log + [UpdateComplete];
    }

    /** The whole script run against this directory with `arg` as `sys.argv[1]`. */
    method Run(arg: string, r: Response, f: Faults, overwrites: bool) returns (log: seq<Message>, crash: Option<Crash>)
      modifies this
      ensures files == Script(old(files), arg, r, f, overwrites).dir
      ensures log == Script(old(files), arg, r, f, overwrites).log
      ensures crash == Script(old(files), arg, r, f, overwrites).crash
    {
      if Hex.FromHex(arg).None? {
        return [], Some(BadArgument);
      }
      var frames;
      crash, frames := Download(r);
      log := [Downloading] + ProgressMessages(frames);
      if crash.Some? {
        return;
      }
      var swapLog := Install(f, overwrites);
      log := log + swapLog;
    }
  }
}
