/** The decoder for chunked transfer coding (_dechunk in scripts/fls-stub.py), on the
    encoding of section 4.1 of RFC 7230. */
module Chunked {
  import opened Wrappers

  type Byte = b: int | 0 <= b < 256

  const CR: Byte := 13
  const LF: Byte := 10
  const SEMICOLON: Byte := 59

  // ------------------------------------------------------------- size lines

  function HexValue(b: Byte): Option<nat> {
    if 48 <= b <= 57 then Some(b - 48)
    else if 65 <= b <= 70 then Some(b - 55)
    else if 97 <= b <= 102 then Some(b - 87)
    else None
  }

  predicate HexDigits(s: seq<Byte>) { forall i | 0 <= i < |s| :: HexValue(s[i]).Some? }

  function Value(s: seq<Byte>): nat
    requires HexDigits(s)
  {
    if s == [] then 0 else 16 * Value(s[..|s| - 1]) + HexValue(s[|s| - 1]).value
  }

  predicate IsSpace(b: Byte) { b == 32 || 9 <= b <= 13 }

  function LStrip(s: seq<Byte>): seq<Byte> { if s != [] && IsSpace(s[0]) then LStrip(s[1..]) else s }
  function RStrip(s: seq<Byte>): seq<Byte> { if s != [] && IsSpace(s[|s| - 1]) then RStrip(s[..|s| - 1]) else s }

  /** split(b";", 1)[0] */
  function BeforeSemicolon(s: seq<Byte>): seq<Byte> {
    if s == [] || s[0] == SEMICOLON then [] else [s[0]] + BeforeSemicolon(s[1..])
  }

  /** Digits, with single underscores between them. */
  function Digits(s: seq<Byte>): Option<seq<Byte>> {
    if s == [] || HexValue(s[0]).None? then None
    else if |s| == 1 then Some(s)
    else
      var rest := Digits(if s[1] == 95 then s[2..] else s[1..]);
      if rest.None? then None else Some([s[0]] + rest.value)
  }

  lemma {:induction false} DigitsAreHex(s: seq<Byte>)
    ensures Digits(s).Some? ==> HexDigits(Digits(s).value)
    decreases |s|
  {
    if |s| > 1 && HexValue(s[0]).Some? { DigitsAreHex(if s[1] == 95 then s[2..] else s[1..]); }
  }

  /** int(s, 16): an optional sign, an optional 0x, digits. */
  function ParseSize(s: seq<Byte>): Option<int> {
    var signed := s != [] && (s[0] == 43 || s[0] == 45);
    var u := if signed then s[1..] else s;
    var prefixed := |u| >= 2 && u[0] == 48 && (u[1] == 120 || u[1] == 88);
    var digits := Digits(if !prefixed then u else if |u| >= 3 && u[2] == 95 then u[3..] else u[2..]);
    if digits.None? then None
    else
      DigitsAreHex(if !prefixed then u else if |u| >= 3 && u[2] == 95 then u[3..] else u[2..]);
      var size: int := Value(digits.value);
      Some(if signed && s[0] == 45 then -size else size)
  }

  // --------------------------------------------------------------- the loop

  /** A slice bound: negative ones count from the end, all are clamped. */
  function Bound(i: int, n: nat): (r: nat)
    ensures r <= n
  {
    if i < 0 then if i + n < 0 then 0 else i + n else if i > n then n else i
  }

  function Slice(raw: seq<Byte>, a: int, b: int): seq<Byte> {
    var i, j := Bound(a, |raw|), Bound(b, |raw|);
    if i < j then raw[i..j] else []
  }

  /** The first line end at or after i. */
  function Find(raw: seq<Byte>, i: nat): (r: Option<nat>)
    requires i <= |raw|
    ensures r.Some? ==> i <= r.value && r.value + 2 <= |raw|
    decreases |raw| - i
  {
    if i + 2 > |raw| then None
    else if raw[i] == CR && raw[i + 1] == LF then Some(i)
    else Find(raw, i + 1)
  }

  datatype State = State(pos: int, out: seq<Byte>, done: bool)

  const START := State(0, [], false)

  function SizeLine(raw: seq<Byte>, pos: int, eol: nat): seq<Byte> {
    RStrip(LStrip(BeforeSemicolon(Slice(raw, pos, eol))))
  }

  /** One turn of the loop. */
  function Step(raw: seq<Byte>, s: State): State {
    if s.done || s.pos >= |raw| then s.(done := true)
    else
      var eol := Find(raw, Bound(s.pos, |raw|));
      if eol.None? then s.(done := true)
      else
        var line := SizeLine(raw, s.pos, eol.value);
        var pos := eol.value + 2;
        if line == [] then s.(pos := pos)
        else
          var size := ParseSize(line);
          if size.None? || size.value == 0 then s.(done := true)
          else State(pos + size.value + 2, s.out + Slice(raw, pos, pos + size.value), false)
  }

  function Steps(raw: seq<Byte>, s: State, n: nat): State
    decreases n
  {
    if n == 0 then s else Steps(raw, Step(raw, s), n - 1)
  }

  /** The loop ends: if it ever does, it does so within a turn for each byte and one more
      (EndsIff), and it need not. */
  predicate Ends(raw: seq<Byte>) { Steps(raw, START, |raw| + 1).done }

  function Decode(raw: seq<Byte>): seq<Byte> { Steps(raw, START, |raw| + 1).out }

  /** The decoder, where its loop ends. */
  method Dechunk(raw: seq<Byte>) returns (out: seq<Byte>)
    requires Ends(raw)
    ensures out == Decode(raw)
  {
    hide Steps, ParseSize, SizeLine, Find, Slice, Bound, Ends, Decode;
    ghost var turns := Turns(raw);
    out := [];
    var pos := 0;
    ghost var left := turns;
    while pos < |raw|
      invariant Steps(raw, START, turns) == Steps(raw, State(pos, out, false), left)
      decreases left
    {
      left := Turn(raw, State(pos, out, false), left);
      var eol := Find(raw, Bound(pos, |raw|));
      if eol.None? {
        DoneStays(raw, State(pos, out, true), left);
        break;
      }
      var line := SizeLine(raw, pos, eol.value);
      if line == [] {
        pos := eol.value + 2;
        continue;
      }
      var size := ParseSize(line);
      if size.None? || size.value == 0 {
        DoneStays(raw, State(pos, out, true), left);
        break;
      }
      pos := eol.value + 2;
      out := out + Slice(raw, pos, pos + size.value);
      pos := pos + size.value + 2;
    }
    if pos >= |raw| { PastEndIsDone(raw, State(pos, out, false), left); }
  }

  lemma Turns(raw: seq<Byte>) returns (turns: nat)
    requires Ends(raw)
    ensures Steps(raw, START, turns).done && Steps(raw, START, turns).out == Decode(raw)
  {
    turns := |raw| + 1;
  }

  lemma Turn(raw: seq<Byte>, s: State, n: nat) returns (left: nat)
    requires !s.done && Steps(raw, s, n).done
    ensures n == left + 1 && Steps(raw, s, n) == Steps(raw, Step(raw, s), left)
  {
    left := n - 1;
  }

  lemma {:induction false} DoneStays(raw: seq<Byte>, s: State, n: nat)
    requires s.done
    ensures Steps(raw, s, n) == s
    decreases n
  {
    if n > 0 { DoneStays(raw, s, n - 1); }
  }

  lemma PastEndIsDone(raw: seq<Byte>, s: State, n: nat)
    requires s.pos >= |raw|
    ensures Steps(raw, s, n).out == s.out
  {
    if n > 0 { DoneStays(raw, s.(done := true), n - 1); }
  }

  // --------------------------------------------------------------- encoding

  /** A chunk: its size in hexadecimal, an extension (none, or from a semicolon on), its data. */
  datatype Chunk = Chunk(size: seq<Byte>, ext: seq<Byte>, data: seq<Byte>)

  predicate ValidSize(size: seq<Byte>, ext: seq<Byte>) {
    size != [] && HexDigits(size) && (ext == [] || ext[0] == SEMICOLON) && CR !in ext
  }

  predicate ValidChunk(c: Chunk) { ValidSize(c.size, c.ext) && c.data != [] && Value(c.size) == |c.data| }

  const CRLF: seq<Byte> := [CR, LF]

  /** The chunks, then the last chunk of size zero, then trailers and the final line end. */
  function Encode(chunks: seq<Chunk>, zeros: seq<Byte>, ext: seq<Byte>, trailer: seq<Byte>): seq<Byte> {
    if chunks == [] then zeros + ext + CRLF + trailer
    else
      var c := chunks[0];
      (c.size + c.ext + CRLF) + (c.data + CRLF) + Encode(chunks[1..], zeros, ext, trailer)
  }

  function Payload(chunks: seq<Chunk>): seq<Byte> {
    if chunks == [] then [] else chunks[0].data + Payload(chunks[1..])
  }

  // -------------------------------------------------------------- size lines read

  lemma {:induction false} DigitsOfHex(s: seq<Byte>)
    requires s != [] && HexDigits(s)
    ensures Digits(s) == Some(s)
    decreases |s|
  {
    if |s| > 1 {
      assert HexValue(s[0]).Some? && HexValue(s[1]).Some?;
      DigitsOfHex(s[1..]);
      assert [s[0]] + s[1..] == s;
    }
  }

  lemma ParseHex(s: seq<Byte>)
    requires s != [] && HexDigits(s)
    ensures ParseSize(s) == Some(Value(s))
  {
    assert HexValue(s[0]).Some? && (|s| >= 2 ==> HexValue(s[1]).Some?);
    DigitsOfHex(s);
  }

  lemma {:induction false} BeforeExtension(size: seq<Byte>, ext: seq<Byte>)
    requires HexDigits(size) && (ext == [] || ext[0] == SEMICOLON)
    ensures BeforeSemicolon(size + ext) == size
    decreases |size|
  {
    if size == [] {
      assert size + ext == ext;
    } else {
      assert HexValue(size[0]).Some?;
      assert (size + ext)[1..] == size[1..] + ext;
      BeforeExtension(size[1..], ext);
    }
  }

  lemma HexIsStripped(s: seq<Byte>)
    requires s != [] && HexDigits(s)
    ensures RStrip(LStrip(s)) == s
  {
    assert HexValue(s[0]).Some? && HexValue(s[|s| - 1]).Some?;
  }

  lemma {:induction false} FindAt(raw: seq<Byte>, i: nat, eol: nat)
    requires i <= eol && eol + 2 <= |raw| && raw[eol] == CR && raw[eol + 1] == LF
             && (forall k | i <= k < eol :: raw[k] != CR)
    ensures Find(raw, i) == Some(eol)
    decreases eol - i
  {
    if i < eol { FindAt(raw, i + 1, eol); }
  }

  lemma {:induction false} FindNone(raw: seq<Byte>, i: nat)
    requires i <= |raw| && (forall k | i <= k < |raw| - 1 :: raw[k] != CR)
    ensures Find(raw, i) == None
    decreases |raw| - i
  {
    if i + 2 <= |raw| { FindNone(raw, i + 1); }
  }

  lemma SizeHasNoCR(size: seq<Byte>, ext: seq<Byte>)
    requires ValidSize(size, ext)
    ensures forall i | 0 <= i < |size + ext| :: (size + ext)[i] != CR
  {
    forall i | 0 <= i < |size + ext| ensures (size + ext)[i] != CR {
      if i < |size| { assert HexValue(size[i]).Some?; } else { assert (size + ext)[i] == ext[i - |size|]; }
    }
  }

  /** A whole size line is read as its value; one that is cut short ends the loop. */
  lemma ReadSize(raw: seq<Byte>, pos: nat, out: seq<Byte>, size: seq<Byte>, ext: seq<Byte>)
    requires ValidSize(size, ext) && pos <= |raw|
    requires var line := size + ext + CRLF;
             if |raw| - pos >= |line| then raw[pos..pos + |line|] == line else raw[pos..] == line[..|raw| - pos]
    ensures var s, n := State(pos, out, false), |size + ext + CRLF|;
            Step(raw, s) ==
              if |raw| - pos < n || Value(size) == 0 then State(pos, out, true)
              else State(pos + n + Value(size) + 2, out + Slice(raw, pos + n, pos + n + Value(size)), false)
  {
    hide Step, Slice, Find, SizeLine, ParseSize, Value, HexDigits;
    var body := size + ext;
    var line := body + CRLF;
    SameBytes(raw, pos, line);
    SizeHasNoCR(size, ext);
    if |raw| - pos < |line| {
      FindNone(raw, pos);
      StepNone(raw, State(pos, out, false));
    } else {
      var eol := pos + |body|;
      FindAt(raw, pos, eol);
      assert raw[pos..eol] == body;
      SizeLineRead(raw, pos, size, ext);
      StepAt(raw, State(pos, out, false), eol, size);
    }
  }

  lemma SizeLineRead(raw: seq<Byte>, pos: nat, size: seq<Byte>, ext: seq<Byte>)
    requires ValidSize(size, ext) && pos + |size + ext| <= |raw| && raw[pos..pos + |size + ext|] == size + ext
    ensures SizeLine(raw, pos, pos + |size + ext|) == size && ParseSize(size) == Some(Value(size))
  {
    hide Slice, BeforeSemicolon, LStrip, RStrip, HexDigits, Value, ParseSize;
    SliceForward(raw, pos, |size + ext|);
    BeforeExtension(size, ext);
    HexIsStripped(size);
    ParseHex(size);
  }

  lemma StepNone(raw: seq<Byte>, s: State)
    requires !s.done && Find(raw, Bound(s.pos, |raw|)) == None
    ensures Step(raw, s) == s.(done := true)
  {
  }

  lemma StepAt(raw: seq<Byte>, s: State, eol: nat, line: seq<Byte>)
    requires !s.done && s.pos < |raw| && Find(raw, Bound(s.pos, |raw|)) == Some(eol)
    requires SizeLine(raw, s.pos, eol) == line && line != [] && ParseSize(line).Some?
    ensures var size := ParseSize(line).value;
            Step(raw, s) == if size == 0 then s.(done := true)
                            else State(eol + 2 + size + 2, s.out + Slice(raw, eol + 2, eol + 2 + size), false)
  {
    hide Find, SizeLine, ParseSize, Slice;
  }

  lemma SameBytes(raw: seq<Byte>, pos: nat, line: seq<Byte>)
    requires pos <= |raw|
    requires if |raw| - pos >= |line| then raw[pos..pos + |line|] == line else raw[pos..] == line[..|raw| - pos]
    ensures forall k | pos <= k < |raw| && k < pos + |line| :: raw[k] == line[k - pos]
  {
    forall k | pos <= k < |raw| && k < pos + |line| ensures raw[k] == line[k - pos] {
      if |raw| - pos >= |line| {
        assert raw[pos..pos + |line|][k - pos] == raw[k];
      } else {
        assert raw[pos..][k - pos] == raw[k];
      }
    }
  }

  // ------------------------------------------------------------------- decoding

  predicate Decoded(raw: seq<Byte>, pos: nat, out: seq<Byte>, n: nat, got: seq<Byte>) {
    Steps(raw, State(pos, out, false), n) == State(Steps(raw, State(pos, out, false), n).pos, out + got, true)
  }

  lemma ThenDecoded(raw: seq<Byte>, pos: nat, out: seq<Byte>, at: nat, some: seq<Byte>, n: nat, more: seq<Byte>)
    requires Step(raw, State(pos, out, false)) == State(at, out + some, false) && Decoded(raw, at, out + some, n, more)
    ensures Decoded(raw, pos, out, n + 1, some + more)
  {
    hide Step;
    assert out + (some + more) == out + some + more;
  }

  /** Wherever the text from pos on is the start of an encoding, the loop ends with a
      prefix of its payload, and with the whole of it when the encoding is whole. */
  lemma {:induction false} DecodesFrom(raw: seq<Byte>, pos: nat, out: seq<Byte>, chunks: seq<Chunk>,
                                       zeros: seq<Byte>, ext: seq<Byte>, trailer: seq<Byte>)
    returns (n: nat, got: seq<Byte>)
    requires (forall c | c in chunks :: ValidChunk(c)) && ValidSize(zeros, ext) && Value(zeros) == 0
    requires pos <= |raw| && raw[pos..] <= Encode(chunks, zeros, ext, trailer)
    ensures Decoded(raw, pos, out, n, got) && got <= Payload(chunks)
    ensures raw[pos..] == Encode(chunks, zeros, ext, trailer) ==> got == Payload(chunks)
    decreases chunks
  {
    hide Step, ValidChunk, ValidSize, HexDigits, HexValue, Value, Slice, Decoded, Find, Bound, Steps;
    if chunks == [] {
      LastLine(raw, pos, out, zeros, ext, trailer);
      n, got := 1, [];
    } else {
      var c, rest := chunks[0], Encode(chunks[1..], zeros, ext, trailer);
      assert c in chunks && forall d | d in chunks[1..] :: d in chunks;
      var line, data := c.size + c.ext + CRLF, c.data + CRLF;
      assert Encode(chunks, zeros, ext, trailer) == line + data + rest;
      if |raw| - pos < |line| {
        ChunkCut(raw, pos, out, c, rest);
        n, got := 1, [];
      } else {
        got := ChunkRead(raw, pos, out, c, rest);
        var at := pos + |line| + |data|;
        if |raw| < at {
          PastEnd(raw, at, out + got);
          ThenDecoded(raw, pos, out, at, got, 1, []);
          n := 2;
          assert got + [] == got;
        } else {
          var k, more := DecodesFrom(raw, at, out + got, chunks[1..], zeros, ext, trailer);
          ThenDecoded(raw, pos, out, at, got, k, more);
          n, got := k + 1, got + more;
        }
      }
    }
  }

  lemma PastEnd(raw: seq<Byte>, pos: nat, out: seq<Byte>)
    requires pos >= |raw|
    ensures Decoded(raw, pos, out, 1, [])
  {
    EndsAt(raw, pos, out);
  }

  lemma EndsAt(raw: seq<Byte>, pos: nat, out: seq<Byte>)
    requires Step(raw, State(pos, out, false)) == State(pos, out, true)
    ensures Decoded(raw, pos, out, 1, [])
  {
    hide Step;
    assert out + [] == out;
    var s := State(pos, out, false);
    assert Steps(raw, s, 1) == Steps(raw, Step(raw, s), 0);
  }

  lemma LastLine(raw: seq<Byte>, pos: nat, out: seq<Byte>, zeros: seq<Byte>, ext: seq<Byte>, trailer: seq<Byte>)
    requires ValidSize(zeros, ext) && Value(zeros) == 0
    requires pos <= |raw| && raw[pos..] <= zeros + ext + CRLF + trailer
    ensures Decoded(raw, pos, out, 1, [])
  {
    var line := zeros + ext + CRLF;
    PrefixLine(raw, pos, line, trailer);
    ReadSize(raw, pos, out, zeros, ext);
    EndsAt(raw, pos, out);
  }

  lemma PrefixLine(raw: seq<Byte>, pos: nat, line: seq<Byte>, rest: seq<Byte>)
    requires pos <= |raw| && raw[pos..] <= line + rest
    ensures if |raw| - pos >= |line| then raw[pos..pos + |line|] == line else raw[pos..] == line[..|raw| - pos]
    ensures |raw| - pos >= |line| ==> raw[pos + |line|..] <= rest
    ensures raw[pos..] == line + rest ==> |raw| - pos >= |line| && raw[pos + |line|..] == rest
  {
    var t := raw[pos..];
    assert t == (line + rest)[..|t|];
    if |t| >= |line| {
      assert raw[pos..pos + |line|] == t[..|line|];
      assert raw[pos + |line|..] == t[|line|..] == rest[..|t| - |line|];
    }
  }

  /** A chunk whose size line is cut short. */
  lemma ChunkCut(raw: seq<Byte>, pos: nat, out: seq<Byte>, c: Chunk, rest: seq<Byte>)
    requires ValidChunk(c) && pos <= |raw|
    requires var line := c.size + c.ext + CRLF; raw[pos..] <= line + (c.data + CRLF) + rest && |raw| - pos < |line|
    ensures Decoded(raw, pos, out, 1, [])
  {
    hide HexDigits, Value, Decoded, Step, Slice;
    var line, data := c.size + c.ext + CRLF, c.data + CRLF;
    assert line + data + rest == line + (data + rest);
    PrefixLine(raw, pos, line, data + rest);
    ReadSize(raw, pos, out, c.size, c.ext);
    EndsAt(raw, pos, out);
  }

  /** A chunk whose size line is whole: its data, or what is left of it. */
  lemma ChunkRead(raw: seq<Byte>, pos: nat, out: seq<Byte>, c: Chunk, rest: seq<Byte>) returns (got: seq<Byte>)
    requires ValidChunk(c) && pos <= |raw|
    requires var line := c.size + c.ext + CRLF; raw[pos..] <= line + (c.data + CRLF) + rest && |raw| - pos >= |line|
    ensures var at := pos + |c.size + c.ext + CRLF| + |c.data + CRLF|;
            && Step(raw, State(pos, out, false)) == State(at, out + got, false) && got <= c.data
            && (at <= |raw| ==> got == c.data && raw[at..] <= rest)
            && (raw[pos..] == (c.size + c.ext + CRLF) + (c.data + CRLF) + rest ==> at <= |raw| && raw[at..] == rest)
  {
    hide HexDigits, HexValue, Value, Step, Slice, Bound, Find, ValidSize;
    var line, data := c.size + c.ext + CRLF, c.data + CRLF;
    var p := pos + |line|;
    got := Slice(raw, p, p + |c.data|);
    assert line + data + rest == line + (data + rest);
    PrefixLine(raw, pos, line, data + rest);
    ReadSize(raw, pos, out, c.size, c.ext);
    PrefixLine(raw, p, data, rest);
    assert data + rest == c.data + (CRLF + rest);
    PrefixLine(raw, p, c.data, CRLF + rest);
    SliceForward(raw, p, |c.data|);
  }

  lemma SliceForward(raw: seq<Byte>, a: nat, n: nat)
    requires a <= |raw|
    ensures Slice(raw, a, a + n) == if a + n <= |raw| then raw[a..a + n] else raw[a..]
  {
  }

  /** Whatever the chunks, their extensions and the trailers, decoding what section 4.1
      encodes gives back the payload. */
  lemma RoundTrip(chunks: seq<Chunk>, zeros: seq<Byte>, ext: seq<Byte>, trailer: seq<Byte>)
    requires (forall c | c in chunks :: ValidChunk(c)) && ValidSize(zeros, ext) && Value(zeros) == 0
    ensures var raw := Encode(chunks, zeros, ext, trailer); Ends(raw) && Decode(raw) == Payload(chunks)
  {
    var raw := Encode(chunks, zeros, ext, trailer);
    assert raw[0..] == raw;
    var n, got := DecodesFrom(raw, 0, [], chunks, zeros, ext, trailer);
    assert [] + got == got;
    DoneInTime(raw, n);
  }

  /** An encoding cut off anywhere decodes to a prefix of the payload. */
  lemma TruncationIsPrefix(chunks: seq<Chunk>, zeros: seq<Byte>, ext: seq<Byte>, trailer: seq<Byte>, k: nat)
    requires (forall c | c in chunks :: ValidChunk(c)) && ValidSize(zeros, ext) && Value(zeros) == 0
    requires k <= |Encode(chunks, zeros, ext, trailer)|
    ensures var raw := Encode(chunks, zeros, ext, trailer)[..k]; Ends(raw) && Decode(raw) <= Payload(chunks)
  {
    var raw := Encode(chunks, zeros, ext, trailer)[..k];
    assert raw[0..] == raw;
    var n, got := DecodesFrom(raw, 0, [], chunks, zeros, ext, trailer);
    assert [] + got == got;
    DoneInTime(raw, n);
  }

  // ----------------------------------------------------------------- termination

  /** A negative size is accepted and moves the position back: on "-6" the loop comes
      back to where it was and never ends. */
  lemma NegativeSizeNeverEnds(n: nat)
    ensures var raw: seq<Byte> := [45, 54, 13, 10]; Steps(raw, START, n) == START
    decreases n
  {
    var raw: seq<Byte> := [45, 54, 13, 10];
    if n > 0 {
      StuckStep();
      NegativeSizeNeverEnds(n - 1);
    }
  }

  lemma StuckStep()
    ensures var raw: seq<Byte> := [45, 54, 13, 10]; Step(raw, START) == START
  {
    var raw: seq<Byte> := [45, 54, 13, 10];
    FindAt(raw, 0, 2);
    assert raw[0..2] == [45, 54];
    var line: seq<Byte> := [45, 54];
    assert line[1..] == [54];
    assert BeforeSemicolon([54]) == [54] by { assert [54][1..] == []; }
    assert BeforeSemicolon(line) == line;
    assert ParseSize(line) == Some(-6) by {
      DigitsOfHex([54]);
      assert Value([54]) == 6 by { assert [54][..0] == []; }
    }
  }

  /** The stretch from p up to the next semicolon or line end reads as a negative size. */
  predicate NegativeAt(raw: seq<Byte>, p: nat)
    requires p <= |raw|
  {
    var eol := Find(raw, p);
    && eol.Some?
    && ParseSize(SizeLine(raw, p, eol.value)).Some? && ParseSize(SizeLine(raw, p, eol.value)).value < 0
  }

  predicate NoNegativeSize(raw: seq<Byte>) { forall p | 0 <= p < |raw| && raw[p] == 45 :: !NegativeAt(raw, p) }

  /** Where no minus sign starts a size, the loop ends, within a turn for each byte and one more. */
  lemma EndsWithoutNegativeSize(raw: seq<Byte>)
    requires NoNegativeSize(raw)
    ensures Ends(raw)
  {
    EndsFrom(raw, 0, [], |raw| + 1);
  }

  lemma {:induction false} EndsFrom(raw: seq<Byte>, pos: nat, out: seq<Byte>, n: nat)
    requires NoNegativeSize(raw) && n > 0 && n + pos > |raw|
    ensures Steps(raw, State(pos, out, false), n).done
    decreases n
  {
    hide Step, NoNegativeSize;
    var s := State(pos, out, false);
    var next := Step(raw, s);
    if next.done {
      DoneStays(raw, next, n - 1);
    } else {
      StepStays(raw, s);
      StepAdvances(raw, pos, out);
      assert next == State(next.pos, next.out, false);
      EndsFrom(raw, next.pos, next.out, n - 1);
    }
  }

  /** A turn that goes on was inside the text. */
  lemma StepStays(raw: seq<Byte>, s: State)
    requires !Step(raw, s).done
    ensures !s.done && s.pos < |raw|
  {
    hide Find, SizeLine, ParseSize, Slice;
  }

  lemma StepAdvances(raw: seq<Byte>, pos: nat, out: seq<Byte>)
    requires NoNegativeSize(raw) && !Step(raw, State(pos, out, false)).done
    ensures Step(raw, State(pos, out, false)).pos > pos
  {
    hide SizeLine, ParseSize, Slice;
    var eol := Find(raw, pos).value;
    var line := SizeLine(raw, pos, eol);
    if line != [] && ParseSize(line).Some? && ParseSize(line).value < 0 { MinusStartsIt(raw, pos, eol); }
  }

  lemma MinusStartsIt(raw: seq<Byte>, pos: nat, eol: nat)
    requires pos <= |raw| && Find(raw, pos) == Some(eol)
    requires var line := SizeLine(raw, pos, eol); ParseSize(line).Some? && ParseSize(line).value < 0
    ensures !NoNegativeSize(raw)
  {
    hide ParseSize, RStrip, Find;
    var text := raw[pos..eol];
    var body := BeforeSemicolon(text);
    var k := |body| - |LStrip(body)|;
    BodyIsPrefix(text);
    LStripDrops(body);
    var p := pos + k;
    BodyFrom(text, k);
    assert Slice(raw, pos, eol) == text && Slice(raw, p, eol) == raw[p..eol] == text[k..];
    assert BeforeSemicolon(text[k..]) == LStrip(body);
    LStripped(body);
    assert SizeLine(raw, p, eol) == SizeLine(raw, pos, eol);
    NegativeIsSigned(SizeLine(raw, pos, eol));
    RStripKeeps(LStrip(body));
    assert raw[p] == text[k] == body[k] == LStrip(body)[0] == 45;
    FindFrom(raw, pos, p);
    assert NegativeAt(raw, p);
  }

  lemma NegativeIsSigned(s: seq<Byte>)
    requires ParseSize(s).Some? && ParseSize(s).value < 0
    ensures s != [] && s[0] == 45
  {
  }

  lemma BodyIsPrefix(s: seq<Byte>)
    ensures BeforeSemicolon(s) <= s
  {
  }

  lemma {:induction false} BodyFrom(s: seq<Byte>, k: nat)
    requires k <= |BeforeSemicolon(s)| <= |s|
    ensures BeforeSemicolon(s)[k..] == BeforeSemicolon(s[k..])
    decreases k
  {
    if k > 0 {
      BodyIsPrefix(s[1..]);
      BodyFrom(s[1..], k - 1);
      assert s[1..][k - 1..] == s[k..] && BeforeSemicolon(s)[1..] == BeforeSemicolon(s[1..]);
    } else {
      assert s[0..] == s;
    }
  }

  lemma {:induction false} LStripDrops(s: seq<Byte>)
    ensures |LStrip(s)| <= |s| && LStrip(s) == s[|s| - |LStrip(s)|..]
  {
    if s != [] && IsSpace(s[0]) {
      LStripDrops(s[1..]);
      assert s[1..][|s| - 1 - |LStrip(s)|..] == s[|s| - |LStrip(s)|..];
    } else {
      assert s[0..] == s;
    }
  }

  lemma LStripped(s: seq<Byte>)
    ensures LStrip(LStrip(s)) == LStrip(s)
  {
  }

  lemma {:induction false} RStripKeeps(s: seq<Byte>)
    ensures RStrip(s) <= s
  {
    if s != [] && IsSpace(s[|s| - 1]) { RStripKeeps(s[..|s| - 1]); }
  }

  lemma {:induction false} FindFrom(raw: seq<Byte>, i: nat, p: nat)
    requires i <= p <= |raw| && Find(raw, i).Some? && p <= Find(raw, i).value
    ensures Find(raw, p) == Find(raw, i)
    decreases p - i
  {
    if i < p { FindFrom(raw, i + 1, p); }
  }

  // ------------------------------------------------------ how long it can take

  lemma {:induction false} StepsAdd(raw: seq<Byte>, s: State, a: nat, b: nat)
    ensures Steps(raw, s, a + b) == Steps(raw, Steps(raw, s, a), b)
    decreases a
  {
    hide Step;
    if a > 0 { StepsAdd(raw, Step(raw, s), a - 1, b); }
  }

  /** Two positions that the slices and searches of a turn cannot tell apart. */
  predicate Alike(raw: seq<Byte>, s: State, t: State) {
    s.done == t.done && Bound(s.pos, |raw|) == Bound(t.pos, |raw|)
  }

  lemma TurnsAlike(raw: seq<Byte>, s: State, t: State)
    requires Alike(raw, s, t)
    ensures Alike(raw, Step(raw, s), Step(raw, t))
  {
    hide ParseSize, Find, BeforeSemicolon;
    assert |raw| > 0 ==> (s.pos >= |raw|) == (t.pos >= |raw|);
    assert forall eol: nat :: Slice(raw, s.pos, eol) == Slice(raw, t.pos, eol);
  }

  lemma {:induction false} StayAlike(raw: seq<Byte>, s: State, t: State, n: nat)
    requires Alike(raw, s, t)
    ensures Alike(raw, Steps(raw, s, n), Steps(raw, t, n))
    decreases n
  {
    hide Alike, Step;
    if n > 0 {
      TurnsAlike(raw, s, t);
      StayAlike(raw, Step(raw, s), Step(raw, t), n - 1);
    }
  }

  lemma {:induction false} Pigeonhole(bs: seq<nat>, n: nat) returns (i: nat, j: nat)
    requires |bs| > n && forall k | 0 <= k < |bs| :: bs[k] < n
    ensures i < j < |bs| && bs[i] == bs[j]
    decreases n
  {
    var last := |bs| - 1;
    assert bs[last] < n;
    if k :| 0 <= k < last && bs[k] == bs[last] {
      i, j := k, last;
    } else {
      var rest := seq(last, k requires 0 <= k < last => if bs[k] == n - 1 then bs[last] else bs[k]);
      i, j := Pigeonhole(rest, n - 1);
    }
  }

  lemma NotDoneBefore(raw: seq<Byte>, n: nat, i: nat)
    requires !Steps(raw, START, n).done && i <= n
    ensures !Steps(raw, START, i).done
    ensures i < n ==> Steps(raw, START, i).pos < |raw|
  {
    hide Step;
    StepsAdd(raw, START, i, n - i);
    var s := Steps(raw, START, i);
    if s.done { DoneStays(raw, s, n - i); }
    if i < n && Step(raw, s).done { DoneStays(raw, Step(raw, s), n - i - 1); }
    if i < n { StepStays(raw, s); }
  }

  /** A loop that comes back to a position it cannot tell apart never ends. */
  lemma {:induction false} CycleNeverEnds(raw: seq<Byte>, i: nat, j: nat, n: nat)
    requires i < j && !Steps(raw, START, j).done && Alike(raw, Steps(raw, START, i), Steps(raw, START, j))
    ensures !Steps(raw, START, n).done
    decreases n
  {
    hide Alike, Steps;
    if n <= j {
      NotDoneBefore(raw, j, n);
    } else {
      CycleNeverEnds(raw, i, j, n - (j - i));
      StepsAdd(raw, START, i, n - j);
      StepsAdd(raw, START, j, n - j);
      StayAlike(raw, Steps(raw, START, i), Steps(raw, START, j), n - j);
      AlikeDone(raw, Steps(raw, START, i + (n - j)), Steps(raw, START, n));
    }
  }

  lemma AlikeDone(raw: seq<Byte>, s: State, t: State)
    requires Alike(raw, s, t)
    ensures s.done == t.done
  {
  }

  lemma AtEnd()
    ensures Steps([], START, 1).done
  {
    assert Steps([], START, 1) == Steps([], Step([], START), 0);
  }

  /** Before the turn after the last byte is counted, every position is inside the text. */
  lemma Positions(raw: seq<Byte>) returns (i: nat, j: nat)
    requires !Ends(raw)
    ensures i < j <= |raw| && !Steps(raw, START, j).done && Alike(raw, Steps(raw, START, i), Steps(raw, START, j))
  {
    hide Step, Steps;
    if raw == [] { AtEnd(); }
    var last: nat := |raw| + 1;
    var bs := seq(last, k requires 0 <= k < last => Bound(Steps(raw, START, k).pos, |raw|));
    forall k | 0 <= k < last ensures bs[k] < |raw| { NotDoneBefore(raw, last, k); }
    i, j := Pigeonhole(bs, |raw|);
    NotDoneBefore(raw, last, i);
    NotDoneBefore(raw, last, j);
    assert bs[i] == bs[j];
  }

  /** The loop ends exactly when it ends within a turn for each byte and one more. */
  lemma EndsIff(raw: seq<Byte>)
    ensures (exists n: nat :: Steps(raw, START, n).done) <==> Ends(raw)
  {
    hide Step, Steps, Alike;
    if Ends(raw) {
      assert Steps(raw, START, |raw| + 1).done;
    } else {
      var i, j := Positions(raw);
      forall n: nat ensures !Steps(raw, START, n).done { CycleNeverEnds(raw, i, j, n); }
    }
  }

  /** Wherever the loop is found ended, that is how it ends. */
  lemma DoneInTime(raw: seq<Byte>, n: nat)
    requires Steps(raw, START, n).done
    ensures Ends(raw) && Decode(raw) == Steps(raw, START, n).out
  {
    hide Steps, Step;
    EndsIff(raw);
    var m: nat := |raw| + 1;
    if n <= m {
      StepsAdd(raw, START, n, m - n);
      DoneStays(raw, Steps(raw, START, n), m - n);
    } else {
      StepsAdd(raw, START, m, n - m);
      DoneStays(raw, Steps(raw, START, m), n - m);
    }
  }
}
