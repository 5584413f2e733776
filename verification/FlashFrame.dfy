/** Frames of the serial flash download: check byte, command and data, each escaped so that
    nothing below 32 appears before the line end. */
module FlashFrame {
  import opened Words

  type Byte = n: int | 0 <= n < 256

  /** A C char, which is signed. */
  type Char = n: int | -128 <= n < 128

  /** What the escape macro is given: a byte, or a char with its sign. */
  type Value = n: int | -128 <= n < 256

  const BUFFER_SIZE: nat := 260
  const LINE_END: Byte := 10

  function Flipped(x: Value): (y: int) {
    // x ^ 0x80; the sign bits of a negative char stay set
    if 0 <= x < 128 then x + 128 else x - 128
  }

  predicate NeedsEscape(x: Value) {
    Flipped(x) < 32 || Flipped(x) >= 0xf0
  }

  /** One byte as it goes out: flipped, or as two nibbles behind 0xf0. */
  function Escape(x: Value): (s: seq<Byte>)
    ensures 1 <= |s| <= 2
  {
    if NeedsEscape(x) then [0xf0 + x / 16 % 16, 0xf0 + x % 16] else [Flipped(x)]
  }

  /** Bytes from 112 to 159 and negative chars take two bytes, and any other one. */
  lemma WhatIsEscaped(x: Value)
    ensures |Escape(x)| == (if x < 0 || 112 <= x < 160 then 2 else 1)
    ensures forall b <- Escape(x) :: b >= 32
  {
  }

  function EscapeAll(msg: seq<Value>): (s: seq<Byte>) {
    if msg == [] then [] else EscapeAll(msg[..|msg| - 1]) + Escape(msg[|msg| - 1])
  }

  function Total(data: seq<int>): (t: int) {
    if data == [] then 0 else Total(data[..|data| - 1]) + data[|data| - 1]
  }

  function CheckByte(cmd: Char, data: seq<Byte>): (b: Byte) {
    -(cmd + Total(data)) % 256
  }

  function Message(cmd: Char, data: seq<Byte>): (m: seq<Value>) {
    [CheckByte(cmd, data), cmd] + data
  }

  // ----- the receiver's reading of a frame -----

  datatype Decoded = Frame(bytes: seq<Byte>) | Malformed

  function Unflipped(y: Byte): (x: Byte) {
    if y < 128 then y + 128 else y - 128
  }

  /** Reads bytes up to the line end. */
  function Decode(s: seq<Byte>): (d: Decoded) {
    if s == [] then Malformed
    else if s[0] == LINE_END then Frame([])
    else if s[0] < 32 then Malformed
    else if s[0] < 0xf0 then Prepend(Unflipped(s[0]), Decode(s[1..]))
    else if |s| > 1 && s[1] >= 0xf0 then Prepend(s[0] % 16 * 16 + s[1] % 16, Decode(s[2..]))
    else Malformed
  }

  function Prepend(b: Byte, d: Decoded): (r: Decoded) {
    if d.Frame? then Frame([b] + d.bytes) else Malformed
  }

  function Bytes(msg: seq<Value>): (s: seq<Byte>) {
    seq(|msg|, k requires 0 <= k < |msg| => msg[k] % 256)
  }

  lemma DecodeEscaped(x: Value, rest: seq<Byte>)
    ensures Decode(Escape(x) + rest) == Prepend(x % 256, Decode(rest))
  {
    var s := Escape(x) + rest;
    if NeedsEscape(x) {
      assert s[2..] == rest;
      assert x % 256 == x / 16 % 16 * 16 + x % 16;
    } else {
      assert s[1..] == rest;
    }
  }

  lemma {:induction false} DecodeAfter(msg: seq<Value>, rest: seq<Byte>, more: seq<Byte>)
    requires Decode(rest) == Frame(more)
    ensures Decode(EscapeAll(msg) + rest) == Frame(Bytes(msg) + more)
    decreases |msg|
  {
    hide Decode;
    if msg == [] {
      assert EscapeAll(msg) + rest == rest && Bytes(msg) + more == more;
    } else {
      var init, last := msg[..|msg| - 1], msg[|msg| - 1];
      DecodeEscaped(last, rest);
      DecodeAfter(init, Escape(last) + rest, [last % 256] + more);
      assert EscapeAll(msg) + rest == EscapeAll(init) + (Escape(last) + rest);
      assert Bytes(msg) + more == Bytes(init) + ([last % 256] + more);
    }
  }

  lemma {:induction false} EscapedBytesPrint(msg: seq<Value>)
    ensures forall b <- EscapeAll(msg) :: b >= 32
    ensures |msg| <= |EscapeAll(msg)| <= 2 * |msg|
    decreases |msg|
  {
    if msg != [] {
      EscapedBytesPrint(msg[..|msg| - 1]);
    }
  }

  lemma {:induction false} TotalOfBytes(msg: seq<Value>)
    ensures Total(Bytes(msg)) % 256 == Total(msg) % 256
    decreases |msg|
  {
    if msg != [] {
      var init, last := msg[..|msg| - 1], msg[|msg| - 1];
      TotalOfBytes(init);
      assert Bytes(msg)[..|msg| - 1] == Bytes(init);
      SameRemainder(Total(Bytes(init)), Total(init), last);
    }
  }

  lemma SameRemainder(a: int, b: int, x: int)
    requires a % 256 == b % 256
    ensures (a + x % 256) % 256 == (b + x) % 256
  {
    var k := b / 256 - a / 256 + x / 256;
    assert b + x == a + x % 256 + k * 256;
    RemainderShift(a + x % 256, 256, k);
  }

  lemma {:induction false} TotalAppend(a: seq<int>, b: seq<int>)
    ensures Total(a + b) == Total(a) + Total(b)
    decreases |b|
  {
    if b == [] {
      assert a + b == a;
    } else {
      assert (a + b)[..|a + b| - 1] == a + b[..|b| - 1];
      TotalAppend(a, b[..|b| - 1]);
    }
  }

  function FrameOf(cmd: Char, data: seq<Byte>): (s: seq<Byte>) {
    EscapeAll(Message(cmd, data)) + [LINE_END]
  }

  /** A frame decodes to check byte, command and data, whose sum is zero, and has nothing
      below 32 before its end. */
  lemma FrameRoundTrip(cmd: Char, data: seq<Byte>)
    ensures Decode(FrameOf(cmd, data)) == Frame([CheckByte(cmd, data), cmd % 256] + data)
    ensures Total([CheckByte(cmd, data), cmd % 256] + data) % 256 == 0
    ensures forall k | 0 <= k < |FrameOf(cmd, data)| - 1 :: FrameOf(cmd, data)[k] >= 32
  {
    hide Decode, EscapeAll;
    var msg := Message(cmd, data);
    var bytes := [CheckByte(cmd, data), cmd % 256] + data;
    assert Bytes(msg) == bytes;
    assert Decode([LINE_END]) == Frame([]) by { LineEndDecodes(); }
    DecodeAfter(msg, [LINE_END], []);
    assert bytes + [] == bytes;
    EscapedBytesPrint(msg);
    TotalOfBytes(msg);
    MessageSumsToZero(cmd, data);
    forall k | 0 <= k < |FrameOf(cmd, data)| - 1 ensures FrameOf(cmd, data)[k] >= 32 {
      assert FrameOf(cmd, data)[k] == EscapeAll(msg)[k] && EscapeAll(msg)[k] in EscapeAll(msg);
    }
  }

  lemma LineEndDecodes()
    ensures Decode([LINE_END]) == Frame([])
  {
  }

  lemma MessageSumsToZero(cmd: Char, data: seq<Byte>)
    ensures Total(Message(cmd, data)) % 256 == 0
  {
    var check := CheckByte(cmd, data);
    TotalAppend([check, cmd], data);
    TotalAppend([check], [cmd]);
    assert [check] + [cmd] == [check, cmd];
    assert Total([check]) == check && Total([cmd]) == cmd by {
      assert [check][..0] == [] && [cmd][..0] == [];
    }
  }

  /** Different commands or data never share a frame. */
  lemma FramesAreUnique(c: Char, a: seq<Byte>, d: Char, b: seq<Byte>)
    requires FrameOf(c, a) == FrameOf(d, b)
    ensures c == d && a == b
  {
    hide FrameOf, CheckByte, Decode;
    FrameRoundTrip(c, a);
    FrameRoundTrip(d, b);
    var x, y := [CheckByte(c, a), c % 256] + a, [CheckByte(d, b), d % 256] + b;
    assert x == y && x[2..] == a && y[2..] == b && x[1] == y[1];
  }

  // ----- the sender -----

  /** The CBYTE macro. */
  method PutByte(buffer: array<Byte>, j: nat, x: Value) returns (next: nat)
    requires buffer.Length == BUFFER_SIZE && j + 2 <= BUFFER_SIZE
    modifies buffer
    ensures next == j + |Escape(x)| && buffer[..next] == old(buffer[..j]) + Escape(x)
  {
    var y := Flipped(x);
    if y < 32 || y >= 0xf0 {
      buffer[j] := 0xf0 + x / 16 % 16;
      buffer[j + 1] := 0xf0 + x % 16;
      next := j + 2;
    } else {
      buffer[j] := y;
      next := j + 1;
    }
  }

  method CheckSum(cmd: Char, data: seq<Byte>) returns (csum: Byte)
    ensures csum == CheckByte(cmd, data)
  {
    var sum: int := cmd;
    for i := 0 to |data|
      invariant sum == cmd + Total(data[..i])
    {
      assert data[..i + 1][..i] == data[..i];
      sum := sum + data[i];
    }
    assert data[..|data|] == data;
    csum := -sum % 256;
  }

  lemma {:induction false} EscapedGrows(msg: seq<Value>, n: nat)
    requires n <= |msg|
    ensures |EscapeAll(msg[..n])| <= |EscapeAll(msg)|
    decreases |msg|
  {
    if n < |msg| {
      assert msg[..|msg| - 1][..n] == msg[..n];
      EscapedGrows(msg[..|msg| - 1], n);
    } else {
      assert msg[..n] == msg;
    }
  }

  lemma EscapeOneMore(msg: seq<Value>, n: nat)
    requires n < |msg|
    ensures EscapeAll(msg[..n + 1]) == EscapeAll(msg[..n]) + Escape(msg[n])
  {
    assert msg[..n + 1][..n] == msg[..n];
  }

  /** Builds a frame in a buffer of 260 bytes; returns what is sent. A frame of 257 bytes or
      more, line end included, is not sent at all. */
  method DownloadCommand(cmd: Char, data: seq<Byte>) returns (sent: seq<Byte>)
    ensures sent == if |FrameOf(cmd, data)| < BUFFER_SIZE - 3 then FrameOf(cmd, data) else []
  {
    hide EscapeAll, Escape, CheckByte;
    var buffer := new Byte[BUFFER_SIZE](_ => 0);
    var csum := CheckSum(cmd, data);
    ghost var msg := Message(cmd, data);
    assert EscapeAll(msg[..0]) == [] by { EscapeNothing(msg); }
    var j := PutByte(buffer, 0, csum);
    EscapeOneMore(msg, 0);
    j := PutByte(buffer, j, cmd);
    EscapeOneMore(msg, 1);
    var i := 0;
    while i < |data| && j < BUFFER_SIZE - 3
      invariant 0 <= i <= |data| && 0 <= j <= BUFFER_SIZE - 2
      invariant buffer[..j] == EscapeAll(msg[..2 + i])
    {
      j := PutByte(buffer, j, data[i]);
      EscapeOneMore(msg, 2 + i);
      i := i + 1;
    }
    EscapedGrows(msg, 2 + i);
    assert i == |data| ==> msg[..2 + i] == msg;
    buffer[j] := LINE_END;
    j := j + 1;
    assert buffer[..j] == EscapeAll(msg[..2 + i]) + [LINE_END];
    if j >= BUFFER_SIZE - 3 {
      return [];
    }
    return buffer[..j];
  }

  lemma EscapeNothing(msg: seq<Value>)
    ensures EscapeAll(msg[..0]) == []
  {
  }
}
