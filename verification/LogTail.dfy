/** The tail of a log, read backwards in chunks (tail_file in scripts/admin_logs.py). */
module LogTail {
  import opened Wrappers
  import opened Lines

  const TAIL_MAX := 2000

  function Clamp(n: int): (r: nat)
    ensures 1 <= r <= TAIL_MAX
  {
    if n < 1 then 1 else if n > TAIL_MAX then TAIL_MAX else n
  }

  /** ls[-n:] */
  function Last(ls: seq<string>, n: nat): seq<string> { if |ls| <= n then ls else ls[|ls| - n..] }

  function Newlines(s: string): nat { if s == "" then 0 else (if s[0] == '\n' then 1 else 0) + Newlines(s[1..]) }

  /** The simple tail: split the whole file, keep the last lines. */
  function Tail(file: Option<string>, n: int): (seq<string>, bool) {
    if file.None? then ([], false) else (Last(Split(file.value), Clamp(n)), true)
  }

  /** A line is split off at every newline. */
  lemma {:induction false} NewlinesAreLines(s: string)
    ensures Newlines(s) <= |SplitKeep(s)|
    decreases |s|
  {
    if s != "" {
      var e := LineEnd(s);
      NewlinesAreLines(s[e..]);
      assert s == s[..e] + s[e..];
      NewlinesConcat(s[..e], s[e..]);
      OneNewline(s[..e]);
    }
  }

  lemma {:induction false} NewlinesConcat(a: string, b: string)
    ensures Newlines(a + b) == Newlines(a) + Newlines(b)
  {
    if a == "" {
      assert a + b == b;
    } else {
      assert (a + b)[1..] == a[1..] + b;
      NewlinesConcat(a[1..], b);
    }
  }

  lemma {:induction false} OneNewline(l: string)
    requires IsLine(l)
    ensures Newlines(l) <= 1
  {
    if |l| == 1 {
      assert Newlines(l[1..]) == 0;
    } else {
      assert IsLine(l[1..]);
      OneNewline(l[1..]);
    }
  }

  lemma ChompLength(ls: seq<string>)
    ensures |ChompAll(ls)| == |ls|
  {
  }

  /** Text that holds more newlines than lines wanted ends in all of those lines, wherever
      in the file it starts. */
  lemma EnoughNewlines(before: string, data: string, n: nat)
    requires n >= 1 && Newlines(data) > n
    ensures Last(Split(data), n) == Last(Split(before + data), n)
  {
    hide SplitKeep, LineEnd, Newlines, IsLine, Split, Last;
    NoNewlines();
    var e := LineEnd(data);
    var x, y := data[..e], data[e..];
    assert data == x + y;
    assert before + (x + y) == (before + x) + y;
    NewlinesConcat(x, y);
    OneNewline(x);
    NewlinesAreLines(y);
    if y == "" { EndedByNewline(x); }
    assert Ended(before + x);
    LastOfSplit(x, y, n);
    LastOfSplit(before + x, y, n);
  }

  lemma EndedByNewline(l: string)
    requires IsLine(l) && Newlines(l) >= 1
    ensures Ended(l)
    decreases |l|
  {
    if |l| == 1 {
      assert l[1..] == "";
    } else {
      assert l[0] != '\n' && IsLine(l[1..]);
      EndedByNewline(l[1..]);
    }
  }

  lemma NoNewlines()
    ensures Newlines("") == 0
  {
  }

  /** The last lines of a text lie in any part of it that starts a line and has enough of them. */
  lemma LastOfSplit(x: string, y: string, n: nat)
    requires Ended(x) && n <= |SplitKeep(y)|
    ensures |Split(y)| >= n && Last(Split(x + y), n) == Split(y)[|Split(y)| - n..]
  {
    hide SplitKeep;
    SplitConcat(x, y);
    ChompConcat(SplitKeep(x), SplitKeep(y));
    ChompLength(SplitKeep(y));
    LastOfConcat(Split(x), Split(y), n);
  }

  lemma LastOfConcat(a: seq<string>, b: seq<string>, n: nat)
    requires n <= |b|
    ensures Last(a + b, n) == b[|b| - n..]
  {
  }

  /** Reading backwards in chunks of any size gives the same lines. */
  method TailFile(file: Option<string>, n: int, chunk: nat) returns (lines: seq<string>, found: bool)
    requires chunk > 0
    ensures (lines, found) == Tail(file, n)
  {
    if file.None? {
      return [], false;
    }
    var wanted := Clamp(n);
    var data := "";
    var pos := |file.value|;
    while pos > 0 && Newlines(data) <= wanted
      invariant 0 <= pos <= |file.value| && data == file.value[pos..]
    {
      var step := if chunk < pos then chunk else pos;
      assert file.value[pos - step..] == file.value[pos - step..pos] + file.value[pos..];
      pos := pos - step;
      data := file.value[pos..pos + step] + data;
    }
    if pos > 0 {
      EnoughNewlines(file.value[..pos], data, wanted);
      assert file.value == file.value[..pos] + data;
    }
    return Last(Split(data), wanted), true;
  }

  /** The tail of a file that is there is the end of its lines: as many as asked for, but at
      least one and at most two thousand, or all of them when there are fewer. */
  lemma TailEnds(file: string, n: int)
    ensures var (lines, found) := Tail(Some(file), n);
            && found && |lines| <= |Split(file)|
            && lines == Split(file)[|Split(file)| - |lines|..]
            && (|lines| == |Split(file)| || |lines| == if n < 1 then 1 else if n > 2000 then 2000 else n)
            && (n <= 0 ==> |lines| <= 1) && |lines| <= 2000 && (n >= 1 ==> |lines| <= n)
  {
    hide Split;
  }
}
