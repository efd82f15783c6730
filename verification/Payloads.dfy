/** The 64-byte union of an entry, byte for byte as a little-endian x86-64 lays it
    out: `result[8]` over `ext_data` (bytes 0-7) and `ext_size` (bytes 8-11). */
module Payloads {
  import opened Words
  import opened Entries

  // The n low bytes of v, least significant first.
  function Bytes(v: nat, n: nat): (bs: seq<u8>)
    ensures |bs| == n
  {
    if n == 0 then [] else [v % 0x100] + Bytes(v / 0x100, n - 1)
  }

  function Number(bs: seq<u8>): nat {
    if bs == [] then 0 else bs[0] + 0x100 * Number(bs[1..])
  }

  function Zeros(n: nat): (z: seq<u8>)
    ensures |z| == n && forall i :: 0 <= i < n ==> z[i] == 0
  {
    seq(n, _ => 0)
  }

  // memcpy(buf + offset, bs, |bs|)
  function Overwrite(buf: seq<u8>, offset: nat, bs: seq<u8>): (r: seq<u8>)
    requires offset + |bs| <= |buf|
    ensures |r| == |buf|
    ensures forall i :: 0 <= i < |buf| ==> r[i] == if offset <= i < offset + |bs| then bs[i - offset] else buf[i]
  {
    buf[..offset] + bs + buf[offset + |bs|..]
  }

  function SetExtData(buf: seq<u8>, pointer: u64): (r: seq<u8>)
    requires |buf| == RESULT_SIZE_MAX
    ensures |r| == RESULT_SIZE_MAX
  {
    Overwrite(buf, 0, Bytes(pointer, 8))
  }

  function SetExtSize(buf: seq<u8>, size: u32): (r: seq<u8>)
    requires |buf| == RESULT_SIZE_MAX
    ensures |r| == RESULT_SIZE_MAX
  {
    Overwrite(buf, 8, Bytes(size, 4))
  }

  // Small data: memcpy into result, then ext_data = NULL and ext_size = 0.
  function InlinePayload(data: seq<u8>): (r: seq<u8>)
    requires |data| <= RESULT_SIZE_MAX
    ensures |r| == RESULT_SIZE_MAX
  {
    SetExtSize(SetExtData(Overwrite(Zeros(RESULT_SIZE_MAX), 0, data), 0), 0)
  }

  // Large data: only ext_data and ext_size are written.
  function ExternalPayload(pointer: u64, size: u32): (r: seq<u8>)
    ensures |r| == RESULT_SIZE_MAX
  {
    SetExtSize(SetExtData(Zeros(RESULT_SIZE_MAX), pointer), size)
  }

  function ResultWord(payload: seq<u8>, i: nat): u64
    requires |payload| == RESULT_SIZE_MAX && i < 8
  {
    NumberBound(payload[8 * i..8 * i + 8]);
    Number(payload[8 * i..8 * i + 8])
  }

  function ExtData(payload: seq<u8>): u64
    requires |payload| == RESULT_SIZE_MAX
  {
    ResultWord(payload, 0)
  }

  function ExtSize(payload: seq<u8>): nat
    requires |payload| == RESULT_SIZE_MAX
  {
    Number(payload[8..12])
  }

  // --- byte encoding ---

  function Power(n: nat): nat {
    if n == 0 then 1 else 0x100 * Power(n - 1)
  }

  lemma {:induction false} NumberPower(bs: seq<u8>)
    ensures Number(bs) < Power(|bs|)
  {
    if bs != [] { NumberPower(bs[1..]); }
  }

  lemma NumberBound(bs: seq<u8>)
    requires |bs| == 8
    ensures Number(bs) < WORD
  {
    NumberPower(bs);
    PowerValues();
  }

  /** Writing a number as bytes and reading it back loses nothing that fits. */
  lemma {:induction false} BytesRoundTrip(v: nat, n: nat)
    requires v < Power(n)
    ensures Number(Bytes(v, n)) == v
  {
    if n > 0 {
      BytesRoundTrip(v / 0x100, n - 1);
      assert Bytes(v, n)[1..] == Bytes(v / 0x100, n - 1);
    }
  }

  lemma {:induction false} ZeroBytes(n: nat)
    ensures Bytes(0, n) == Zeros(n)
  {
    if n > 0 {
      ZeroBytes(n - 1);
      assert Zeros(n) == [0] + Zeros(n - 1);
    }
  }

  lemma {:induction false} NumberZero(bs: seq<u8>)
    ensures Number(bs) == 0 <==> forall i :: 0 <= i < |bs| ==> bs[i] == 0
  {
    if bs != [] {
      NumberZero(bs[1..]);
      assert forall i :: 1 <= i < |bs| ==> bs[i] == bs[1..][i - 1];
    }
  }

  // --- what a stored result still holds ---

  /** The bytes of a stored small result: the two writes after the memcpy have
      cleared the first twelve. */
  lemma InlineBytes(data: seq<u8>)
    requires |data| <= RESULT_SIZE_MAX
    ensures forall i :: 0 <= i < RESULT_SIZE_MAX ==>
              InlinePayload(data)[i] == if i < 12 || |data| <= i then 0 else data[i]
  {
    ZeroBytes(8);
    ZeroBytes(4);
  }

  /** A small result can be read back from its entry exactly when its first twelve
      bytes are zero; a caller can test that before storing. */
  lemma InlineSurvives(data: seq<u8>)
    requires |data| <= RESULT_SIZE_MAX
    ensures InlinePayload(data)[..|data|] == data <==> forall i :: 0 <= i < |data| && i < 12 ==> data[i] == 0
  {
    InlineBytes(data);
    var p := InlinePayload(data)[..|data|];
    if p == data {
      forall i | 0 <= i < |data| && i < 12 ensures data[i] == 0 {
        assert p[i] == data[i];
      }
    }
  }

  // The one-byte result 1 is stored as 0.
  lemma InlineLosesOne()
    ensures InlinePayload([1])[..1] != [1]
  {
    InlineBytes([1]);
    assert InlinePayload([1])[0] == 0;
  }

  /** The register image of a small result starts with a zero word, whatever the
      data; it equals the data's own first word exactly when that word is zero. */
  lemma InlineFirstWord(data: seq<u8>)
    requires |data| <= RESULT_SIZE_MAX
    ensures ResultWord(InlinePayload(data), 0) == 0
    ensures ResultWord(Overwrite(Zeros(RESULT_SIZE_MAX), 0, data), 0) == 0
            <==> forall i :: 0 <= i < |data| && i < 8 ==> data[i] == 0
  {
    InlineBytes(data);
    NumberZero(InlinePayload(data)[0..8]);
    var raw := Overwrite(Zeros(RESULT_SIZE_MAX), 0, data);
    NumberZero(raw[0..8]);
    assert forall i :: 0 <= i < 8 ==> raw[0..8][i] == if i < |data| then data[i] else 0;
  }

  /** A large result's entry gives back the pointer and the length it was given, and holds
      zeros behind them. */
  lemma ExternalRoundTrip(pointer: u64, size: u32)
    ensures ExtData(ExternalPayload(pointer, size)) == pointer
    ensures ExtSize(ExternalPayload(pointer, size)) == size
    ensures forall i :: 12 <= i < RESULT_SIZE_MAX ==> ExternalPayload(pointer, size)[i] == 0
  {
    var p := ExternalPayload(pointer, size);
    assert p[0..8] == Bytes(pointer, 8);
    assert p[8..12] == Bytes(size, 4);
    PowerValues();
    BytesRoundTrip(pointer, 8);
    BytesRoundTrip(size, 4);
  }

  lemma PowerValues()
    ensures Power(8) == WORD && Power(4) == 0x1_0000_0000
  {
    assert Power(8) == 0x100 * Power(7) && Power(7) == 0x100 * Power(6) && Power(6) == 0x100 * Power(5);
    assert Power(5) == 0x100 * Power(4) && Power(4) == 0x100 * Power(3) && Power(3) == 0x100 * Power(2);
    assert Power(2) == 0x100 * Power(1) && Power(1) == 0x100 * Power(0);
  }
}
