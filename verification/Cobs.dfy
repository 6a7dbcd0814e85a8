/** Consistent Overhead Byte Stuffing (Cheshire and Baker), the framing of the update UART.

    `Encode` and `Decode` define the code block by block; the C and the Python loops, which patch
    code bytes in behind them and decode in place, are proved to compute these two functions. */
module Cobs {
  import opened Words

  const FULL := 254

  /** Length of the run of nonzero bytes at the front, no longer than a full block. */
  function Run(s: seq<u8>, limit: nat): (k: nat)
    ensures k <= |s| && k <= limit
    ensures forall i | 0 <= i < k :: s[i] != 0
    ensures k < limit && k < |s| ==> s[k] == 0
    decreases s
  {
    if limit == 0 || s == [] || s[0] == 0 then 0 else
    var k := Run(s[1..], limit - 1);
    assert forall i | 0 < i <= k :: s[i] == s[1..][i - 1];
    k + 1
  }

  function Encode(s: seq<u8>): seq<u8>
    decreases |s|
  {
    var k := Run(s, FULL);
    if k == FULL then [0xFF] + s[..k] + Encode(s[k..])
    else if k == |s| then [k + 1] + s
    else [k + 1] + s[..k] + Encode(s[k + 1..])
  }

  function Decode(e: seq<u8>): Option<seq<u8>>
    decreases |e|
  {
    if e == [] then Some([])
    else if e[0] == 0 || e[0] > |e| then None
    else Join(e[1..e[0]] + Separator(e), Decode(e[e[0]..]))
  }

  /** The zero a block stands for, unless it is full or the last one. */
  function Separator(e: seq<u8>): seq<u8>
    requires e != []
  {
    if e[0] != 0xFF && e[0] < |e| then [0] else []
  }

  function Join(front: seq<u8>, rest: Option<seq<u8>>): Option<seq<u8>> {
    match rest
    case None => None
    case Some(t) => Some(front + t)
  }

  /** Number of full 254-byte blocks the encoder emits. */
  function FullBlocks(s: seq<u8>): nat
    decreases |s|
  {
    var k := Run(s, FULL);
    if k == FULL then 1 + FullBlocks(s[k..])
    else if k == |s| then 0
    else FullBlocks(s[k + 1..])
  }

  predicate ZeroFree(s: seq<u8>) {
    forall i | 0 <= i < |s| :: s[i] != 0
  }

  // ----- properties of the code ---------------------------------------------------------------

  lemma DecodeBlock(code: u8, data: seq<u8>, rest: seq<u8>)
    requires code != 0 && |data| == code - 1
    ensures Decode([code] + data + rest)
         == Join(data + (if code != 0xFF && rest != [] then [0] else []), Decode(rest))
  {
    var e := [code] + data + rest;
    assert e[1..code] == data && e[code..] == rest;
  }

  lemma EncodeNonempty(s: seq<u8>)
    ensures Encode(s) != []
  {
  }

  /** The three shapes of an encoding's first block. */
  lemma EncodeBlock(s: seq<u8>)
    ensures var k := Run(s, FULL);
      && (k == FULL ==> Encode(s) == [0xFF] + s[..k] + Encode(s[k..]))
      && (k == |s| && k != FULL ==> Encode(s) == [k + 1] + s)
      && (k < |s| && k != FULL ==> Encode(s) == [k + 1] + s[..k] + Encode(s[k + 1..]))
  {
  }

  /** Decoding an encoding gives back the bytes, for every byte string. */
  lemma {:induction false} RoundTrip(s: seq<u8>)
    ensures Decode(Encode(s)) == Some(s)
    decreases |s|
  {
    hide Encode, Run;
    EncodeBlock(s);
    var k := Run(s, FULL);
    if k == FULL {
      RoundTrip(s[k..]);
      DecodeBlock(0xFF, s[..k], Encode(s[k..]));
      assert s[..k] + [] + s[k..] == s;
    } else if k == |s| {
      DecodeBlock(k + 1, s, []);
      assert Decode([]) == Some([]);
      assert [k + 1] + s + [] == [k + 1] + s;
      assert s + [] + [] == s;
    } else {
      RoundTrip(s[k + 1..]);
      EncodeNonempty(s[k + 1..]);
      DecodeBlock(k + 1, s[..k], Encode(s[k + 1..]));
      assert s[..k] + [0] + s[k + 1..] == s;
    }
  }

  /** An encoding never contains the frame delimiter, and its length is exact. */
  lemma {:induction false} EncodingShape(s: seq<u8>)
    ensures ZeroFree(Encode(s))
    ensures |Encode(s)| == |s| + 1 + FullBlocks(s)
    ensures FULL * FullBlocks(s) <= |s|
    decreases |s|
  {
    var k := Run(s, FULL);
    if k == FULL {
      EncodingShape(s[k..]);
    } else if k < |s| {
      EncodingShape(s[k + 1..]);
    }
  }

  /** Decoding any nonempty string yields strictly fewer bytes than were read. */
  lemma {:induction false} DecodeShrinks(e: seq<u8>)
    requires e != [] && Decode(e).Some?
    ensures |Decode(e).value| < |e|
    decreases |e|
  {
    var rest := e[e[0]..];
    if rest != [] {
      DecodeShrinks(rest);
    }
  }

  // ----- the source's loops -------------------------------------------------------------------

  /** State of both encoder loops: the block that starts at source index `b` is open, its code byte
      is still to be written at `codeIndex`, and its data is already out. */
  ghost predicate OpenBlock(s: seq<u8>, b: nat, i: nat, done: seq<u8>, data: seq<u8>, code: int) {
    && b <= i <= |s|
    && code == i - b + 1 <= FULL
    && data == s[b..i]
    && ZeroFree(data)
    && Encode(s) == done + Encode(s[b..])
  }

  lemma {:induction false} RunIs(s: seq<u8>, limit: nat, k: nat)
    requires k <= |s| && k <= limit && ZeroFree(s[..k])
    requires k == limit || k == |s| || s[k] == 0
    ensures Run(s, limit) == k
    decreases k
  {
    if k > 0 {
      assert s[0] == s[..k][0];
      assert s[1..][..k - 1] == s[..k][1..];
      RunIs(s[1..], limit - 1, k - 1);
    }
  }

  /** A zero closes the open block. */
  lemma CloseAtZero(s: seq<u8>, b: nat, i: nat, done: seq<u8>, data: seq<u8>, code: int)
    requires OpenBlock(s, b, i, done, data, code) && i < |s| && s[i] == 0
    ensures OpenBlock(s, i + 1, i + 1, done + [code] + data, [], 1)
  {
    hide Encode, Run;
    var t, k := s[b..], i - b;
    assert t[..k] == data;
    RunIs(t, FULL, k);
    EncodeBlock(t);
    assert t[k + 1..] == s[i + 1..];
    assert done + ([k + 1] + t[..k] + Encode(t[k + 1..])) == done + [code] + data + Encode(s[i + 1..]);
  }

  /** The 254th data byte closes it as well, and opens a new one even at the end of the input. */
  lemma CloseFull(s: seq<u8>, b: nat, i: nat, done: seq<u8>, data: seq<u8>)
    requires OpenBlock(s, b, i, done, data, FULL) && i < |s| && s[i] != 0
    ensures OpenBlock(s, i + 1, i + 1, done + [0xFF] + (data + [s[i]]), [], 1)
  {
    hide Encode, Run;
    var t := s[b..];
    assert t[..FULL] == data + [s[i]];
    RunIs(t, FULL, FULL);
    EncodeBlock(t);
    assert t[FULL..] == s[i + 1..];
    assert done + ([0xFF] + t[..FULL] + Encode(t[FULL..])) == done + [0xFF] + (data + [s[i]]) + Encode(s[i + 1..]);
  }

  lemma CloseAtEnd(s: seq<u8>, b: nat, done: seq<u8>, data: seq<u8>, code: int)
    requires OpenBlock(s, b, |s|, done, data, code)
    ensures Encode(s) == done + [code] + data
  {
    hide Encode, Run;
    var t := s[b..];
    assert t[..|t|] == t == data;
    RunIs(t, FULL, |t|);
    EncodeBlock(t);
    assert done + ([code] + data) == done + [code] + data;
  }

  lemma StepOpen(s: seq<u8>, b: nat, i: nat, done: seq<u8>, data: seq<u8>, code: int)
    requires OpenBlock(s, b, i, done, data, code) && i < |s| && s[i] != 0 && code < FULL
    ensures OpenBlock(s, b, i + 1, done, data + [s[i]], code + 1)
  {
    assert s[b..i + 1] == s[b..i] + [s[i]];
  }

  /** The encoder between two input bytes: finished blocks, and the data of the open one. */
  datatype Encoder = Encoder(done: seq<u8>, open: seq<u8>) {
    predicate Valid() { |open| < FULL }

    /** Bytes written so far, the open block's code byte still zero. */
    function Written(): seq<u8> { done + [0] + open }

    function Finish(): seq<u8>
      requires Valid()
    {
      done + [|open| + 1] + open
    }

    function Push(b: u8): (r: Encoder)
      requires Valid()
      ensures r.Valid()
      ensures |r.Written()| > |Written()|
    {
      if b == 0 then Encoder(Finish(), [])
      else if |open| + 1 == FULL then Encoder(done + [0xFF] + (open + [b]), [])
      else Encoder(done, open + [b])
    }
  }

  function After(s: seq<u8>): (r: Encoder)
    ensures r.Valid()
  {
    if s == [] then Encoder([], []) else After(s[..|s| - 1]).Push(s[|s| - 1])
  }

  lemma AfterSnoc(s: seq<u8>, i: nat)
    requires i < |s|
    ensures After(s[..i + 1]) == After(s[..i]).Push(s[i])
  {
    assert s[..i + 1][..i] == s[..i];
  }

  ghost predicate OpenAt(s: seq<u8>, b: nat, i: nat, e: Encoder) {
    OpenBlock(s, b, i, e.done, e.open, |e.open| + 1)
  }

  lemma PushOpen(s: seq<u8>, b: nat, i: nat, e: Encoder) returns (b': nat)
    requires e.Valid() && OpenAt(s, b, i, e) && i < |s|
    ensures OpenAt(s, b', i + 1, e.Push(s[i]))
  {
    if s[i] == 0 {
      CloseAtZero(s, b, i, e.done, e.open, |e.open| + 1);
      b' := i + 1;
    } else if |e.open| + 1 == FULL {
      CloseFull(s, b, i, e.done, e.open);
      b' := i + 1;
    } else {
      StepOpen(s, b, i, e.done, e.open, |e.open| + 1);
      b' := b;
    }
  }

  /** The byte-at-a-time encoder emits the block-wise encoding. */
  lemma {:induction false} AfterIsOpen(s: seq<u8>, i: nat) returns (b: nat)
    requires i <= |s|
    ensures OpenAt(s, b, i, After(s[..i]))
    decreases i
  {
    if i == 0 {
      b := 0;
      assert s[0..] == s;
    } else {
      b := AfterIsOpen(s, i - 1);
      AfterSnoc(s, i - 1);
      b := PushOpen(s, b, i - 1, After(s[..i - 1]));
    }
  }

  lemma AfterAll(s: seq<u8>)
    ensures After(s).Finish() == Encode(s)
  {
    assert s[..|s|] == s;
    var b := AfterIsOpen(s, |s|);
    CloseAtEnd(s, b, After(s).done, After(s).open, |After(s).open| + 1);
  }

  lemma {:induction false} AfterGrows(s: seq<u8>, i: nat)
    requires i <= |s|
    ensures |After(s[..i]).Written()| <= |Encode(s)|
    ensures i < |s| ==> |After(s[..i]).Written()| < |Encode(s)|
    decreases |s| - i
  {
    if i == |s| {
      assert s[..i] == s;
      AfterAll(s);
    } else {
      AfterSnoc(s, i);
      AfterGrows(s, i + 1);
    }
  }

  lemma Patch(done: seq<u8>, open: seq<u8>, code: u8)
    ensures (done + [0] + open)[|done| := code] == done + [code] + open
  {
  }

  /** cobs_encode: the open block's code byte is a placeholder inside the growing output. */
  method EncodeGrowing(data: seq<u8>) returns (output: seq<u8>)
    ensures output == Encode(data)
  {
    hide Encode;
    output := [0];
    var codeIndex, code := 0, 1;
    ghost var e := Encoder([], []);
    for i := 0 to |data|
      invariant e == After(data[..i])
      invariant output == e.Written() && codeIndex == |e.done| && code == |e.open| + 1
    {
      AfterSnoc(data, i);
      if data[i] == 0 {
        Patch(e.done, e.open, code);
        output := output[codeIndex := code] + [0];
        codeIndex, code := |output| - 1, 1;
      } else {
        output := output + [data[i]];
        code := code + 1;
        if code == 0xFF {
          assert output == e.done + [0] + (e.open + [data[i]]);
          Patch(e.done, e.open + [data[i]], code);
          output := output[codeIndex := code] + [0];
          codeIndex, code := |output| - 1, 1;
        }
      }
      e := e.Push(data[i]);
    }
    assert data[..|data|] == data;
    AfterAll(data);
    Patch(e.done, e.open, code);
    output := output[codeIndex := code];
  }

  /** cobsEncode: the same loop writing into the caller's buffer.  It touches nothing beyond the
      encoding it returns the length of. */
  method EncodeInto(source: seq<u8>, destination: array<u8>) returns (length: nat)
    requires |Encode(source)| <= destination.Length
    modifies destination
    ensures length == |Encode(source)|
    ensures destination[..length] == Encode(source)
    ensures destination[length..] == old(destination[length..])
  {
    hide Encode;
    var destinationIndex, codeIndex, code := 1, 0, 1;
    ghost var e, n := Encoder([], []), |Encode(source)|;
    AfterGrows(source, 0);
    PutByte(destination, 0, 0);
    for i := 0 to |source|
      invariant e == After(source[..i])
      invariant codeIndex == |e.done| && code == |e.open| + 1
      invariant destinationIndex == |e.Written()| <= n
      invariant destination[..destinationIndex] == e.Written()
      invariant forall k | n <= k < destination.Length :: destination[k] == old(destination[k])
    {
      AfterSnoc(source, i);
      AfterGrows(source, i + 1);
      destinationIndex, codeIndex, code :=
        EncodeByte(source[i], destination, destinationIndex, codeIndex, code, e);
      e := e.Push(source[i]);
    }
    assert source[..|source|] == source;
    AfterAll(source);
    Patch(e.done, e.open, code);
    destination[codeIndex] := code;
    assert destination[..destinationIndex] == e.Written()[codeIndex := code];
    length := destinationIndex;
  }

  /** One round of the encoder loop: writes no further than the bytes the new state has written. */
  method EncodeByte(b: u8, destination: array<u8>, n: nat, i: nat, code: u8, ghost e: Encoder)
    returns (n': nat, i': nat, code': u8)
    requires e.Valid() && i == |e.done| && code == |e.open| + 1
    requires n == |e.Written()| && |e.Push(b).Written()| <= destination.Length
    requires destination[..n] == e.Written()
    modifies destination
    ensures i' == |e.Push(b).done| && code' == |e.Push(b).open| + 1 && n' == |e.Push(b).Written()|
    ensures destination[..n'] == e.Push(b).Written()
    ensures forall k | n' <= k < destination.Length :: destination[k] == old(destination[k])
  {
    if b == 0 {
      Patch(e.done, e.open, code);
      CloseBlock(destination, n, i, code);
      i', n', code' := n, n + 1, 1;
    } else {
      PutByte(destination, n, b);
      i', n', code' := i, n + 1, code + 1;
      assert destination[..n'] == e.done + [0] + (e.open + [b]);
      if code' == 0xFF {
        Patch(e.done, e.open + [b], code');
        CloseBlock(destination, n', i', code');
        i', n', code' := n', n' + 1, 1;
      }
    }
  }

  /** Writes a block's code byte and opens the next block with a placeholder. */
  method CloseBlock(a: array<u8>, n: nat, i: nat, code: u8)
    requires i < n < a.Length
    modifies a
    ensures a[..n + 1] == old(a[..n])[i := code] + [0]
    ensures forall k | n < k < a.Length :: a[k] == old(a[k])
  {
    a[i] := code;
    a[n] := 0;
  }

  method PutByte(a: array<u8>, n: nat, b: u8)
    requires n < a.Length
    modifies a
    ensures a[..n + 1] == old(a[..n]) + [b]
    ensures forall k | n < k < a.Length :: a[k] == old(a[k])
  {
    a[n] := b;
  }

  // ----- decoding -----------------------------------------------------------------------------

  /** What both decoder loops maintain: the output so far, completed by the decoding of the rest. */
  ghost predicate Decoding(e: seq<u8>, read: nat, output: seq<u8>) {
    && read <= |e|
    && Decode(e) == Join(output, Decode(e[read..]))
    && |output| <= read
  }

  lemma DecodingStart(e: seq<u8>)
    ensures Decoding(e, 0, [])
  {
    assert e[0..] == e;
    if Decode(e).Some? {
      assert [] + Decode(e).value == Decode(e).value;
    }
  }

  lemma JoinTwice(a: seq<u8>, b: seq<u8>, rest: Option<seq<u8>>)
    ensures Join(a, Join(b, rest)) == Join(a + b, rest)
  {
    if rest.Some? {
      assert a + (b + rest.value) == a + b + rest.value;
    }
  }

  /** Bytes the block at `read` contributes. */
  function Block(e: seq<u8>, read: nat): seq<u8>
    requires read < |e| && e[read] != 0 && read + e[read] <= |e|
  {
    e[read + 1..read + e[read]] + (if e[read] != 0xFF && read + e[read] < |e| then [0] else [])
  }

  lemma DecodeAt(e: seq<u8>, read: nat)
    requires read < |e| && e[read] != 0 && read + e[read] <= |e|
    ensures Decode(e[read..]) == Join(Block(e, read), Decode(e[read + e[read]..]))
  {
    var t, code := e[read..], e[read];
    assert t[1..code] == e[read + 1..read + code];
    assert t[code..] == e[read + code..];
    assert Block(e, read) == t[1..code] + Separator(t);
  }

  lemma DecodeStep(e: seq<u8>, read: nat, output: seq<u8>)
    requires Decoding(e, read, output) && read < |e|
    ensures e[read] == 0 || read + e[read] > |e| ==> Decode(e) == None
    ensures e[read] != 0 && read + e[read] <= |e| ==>
      Decoding(e, read + e[read], output + Block(e, read))
  {
    if e[read] != 0 && read + e[read] <= |e| {
      DecodeAt(e, read);
      JoinTwice(output, Block(e, read), Decode(e[read + e[read]..]));
    }
  }

  lemma DecodeDone(e: seq<u8>, output: seq<u8>)
    requires Decoding(e, |e|, output)
    ensures Decode(e) == Some(output)
  {
    assert output + [] == output;
  }

  /** cobs_decode: the output grows in a buffer of its own. */
  method DecodeGrowing(data: seq<u8>) returns (r: Option<seq<u8>>)
    ensures r == Decode(data)
  {
    hide Decode;
    var output: seq<u8>, index := [], 0;
    DecodingStart(data);
    while index < |data|
      invariant Decoding(data, index, output)
    {
      DecodeStep(data, index, output);
      var code := data[index];
      if code == 0 || index + code > |data| {
        return None;
      }
      ghost var block, before := Block(data, index), output;
      index := index + 1;
      output := output + data[index..index + code - 1];
      index := index + code - 1;
      if code != 0xFF && index < |data| {
        output := output + [0];
      }
      assert output == before + block;
    }
    DecodeDone(data, output);
    r := Some(output);
  }

  /** cobsDecode: decodes in place.  Every byte it writes lies before the byte it will read next, so
      the unread input is intact throughout and the result is the one of the growing decoder. */
  method DecodeInPlace(buffer: array<u8>, encodedLength: u16) returns (r: Option<nat>)
    requires encodedLength <= buffer.Length
    modifies buffer
    ensures r.Some? <==> Decode(old(buffer[..encodedLength])).Some?
    ensures r.Some? ==> r.value <= encodedLength
                        && Some(buffer[..r.value]) == Decode(old(buffer[..encodedLength]))
    ensures buffer[encodedLength..] == old(buffer[encodedLength..])
  {
    hide Decode;
    ghost var e := buffer[..encodedLength];
    var readIndex, writeIndex := 0, 0;
    DecodingStart(e);
    while readIndex < encodedLength
      invariant 0 <= writeIndex <= readIndex <= encodedLength
      invariant Decoding(e, readIndex, buffer[..writeIndex])
      invariant forall k | readIndex <= k < encodedLength :: buffer[k] == e[k]
      invariant forall k | encodedLength <= k < buffer.Length :: buffer[k] == old(buffer[k])
    {
      DecodeStep(e, readIndex, buffer[..writeIndex]);
      var code := buffer[readIndex];
      if code == 0 || readIndex + code > encodedLength {
        return None;
      }
      writeIndex := MoveBlock(buffer, readIndex, writeIndex, encodedLength, e);
      readIndex := readIndex + code;
    }
    DecodeDone(e, buffer[..writeIndex]);
    r := Some(writeIndex);
  }

  /** One round of the decoder loop: a block's data moves to the front, followed by its zero. */
  method MoveBlock(buffer: array<u8>, read: nat, write: nat, end: nat, ghost e: seq<u8>) returns (w: nat)
    requires write <= read < end == |e| <= buffer.Length
    requires forall k | read <= k < end :: buffer[k] == e[k]
    requires e[read] != 0 && read + e[read] <= end
    modifies buffer
    ensures w <= read + e[read]
    ensures buffer[..w] == old(buffer[..write]) + Block(e, read)
    ensures forall k | read + e[read] <= k < end :: buffer[k] == e[k]
    ensures forall k | end <= k < buffer.Length :: buffer[k] == old(buffer[k])
  {
    var code := buffer[read];
    assert buffer[read + 1..read + code] == e[read + 1..read + code];
    CopyDown(buffer, read + 1, write, code - 1, end);
    w := write + code - 1;
    assert buffer[..w] == buffer[..write] + buffer[write..w];
    if code != 0xFF && read + code < end {
      PutByte(buffer, w, 0);
      w := w + 1;
    }
  }

  /** The decoder's inner loop: moves a block's data towards the front of the buffer. */
  method CopyDown(buffer: array<u8>, from: nat, to: nat, count: nat, end: nat)
    requires to < from && from + count <= end <= buffer.Length
    modifies buffer
    ensures buffer[..to] == old(buffer[..to])
    ensures buffer[to..to + count] == old(buffer[from..from + count])
    ensures forall k | from + count <= k < buffer.Length :: buffer[k] == old(buffer[k])
  {
    for copied := 0 to count
      invariant buffer[..to] == old(buffer[..to])
      invariant buffer[to..to + copied] == old(buffer[from..from + copied])
      invariant forall k | from + copied <= k < buffer.Length :: buffer[k] == old(buffer[k])
    {
      buffer[to + copied] := buffer[from + copied];
    }
  }
}
