/** The 48-byte record that the kernel program fills as a C struct and the agent reads field by field. */
module EventWire {
  import opened Wrappers
  import opened Text

  function Pow256(n: nat): (p: nat)
    ensures 0 < p
  {
    if n == 0 then 1 else 256 * Pow256(n - 1)
  }

  /** The fields both sides agree on. */
  datatype Event = Event(ts: nat, cpu: nat, nrRunning: nat, runtimeNs: int, tgPtr: nat, cgid: nat) {
    predicate Valid() {
      && ts < Pow256(8) && cpu < Pow256(4) && nrRunning < Pow256(4)
      && 0 <= 2 * runtimeNs + Pow256(8) && 2 * runtimeNs < Pow256(8)
      && tgPtr < Pow256(8) && cgid < Pow256(8)
    }
  }

  // ---- Little-endian numbers -----------------------------------------------

  function Bytes(v: nat, n: nat): (b: seq<Byte>)
    ensures |b| == n
  {
    if n == 0 then [] else [(v % 256) as Byte] + Bytes(v / 256, n - 1)
  }

  function Number(b: seq<Byte>): nat {
    if b == [] then 0 else b[0] as nat + 256 * Number(b[1..])
  }

  lemma {:induction false} NumberOfBytes(v: nat, n: nat)
    requires v < Pow256(n)
    ensures Number(Bytes(v, n)) == v
    decreases n
  {
    if n != 0 {
      NumberOfBytes(v / 256, n - 1);
      assert Bytes(v, n)[1..] == Bytes(v / 256, n - 1);
    }
  }

  /** Two's complement in n bytes. */
  function Unsigned(v: int, n: nat): int {
    if v < 0 then v + Pow256(n) else v
  }

  function Signed(u: nat, n: nat): int {
    if 2 * u < Pow256(n) then u else u - Pow256(n)
  }

  // ---- Layouts -------------------------------------------------------------

  function EndBefore(sizes: seq<nat>, offsets: seq<nat>, k: nat): nat
    requires k <= |sizes| == |offsets|
  {
    if k == 0 then 0 else offsets[k - 1] + sizes[k - 1]
  }

  /** `offset` is the first multiple of `size` from `end` on. */
  predicate FirstAligned(offset: nat, end: nat, size: nat) {
    0 < size && end <= offset < end + size && offset % size == 0
  }

  /** Natural alignment in C, for members that are plain integers. */
  predicate NaturalLayout(sizes: seq<nat>, offsets: seq<nat>) {
    && |sizes| == |offsets|
    && forall k :: 0 <= k < |sizes| ==> FirstAligned(offsets[k], EndBefore(sizes, offsets, k), sizes[k])
  }

  lemma FirstAligned4(offset: nat, q: nat)
    ensures FirstAligned(offset, 4 * q, 4) ==> offset == 4 * q
  {}

  lemma FirstAligned8(offset: nat, q: nat)
    ensures FirstAligned(offset, 8 * q, 8) ==> offset == 8 * q
    ensures FirstAligned(offset, 8 * q + 4, 8) ==> offset == 8 * q + 8
  {}

  /** Where a reader that takes the fields one after the other finds field `k`. */
  function PackedOffset(sizes: seq<nat>, k: nat): nat
    requires k <= |sizes|
  {
    if k == 0 then 0 else PackedOffset(sizes, k - 1) + sizes[k - 1]
  }

  /** Members: ts, cpu, nr_running, runtime_ns, _pad, tg_ptr, cgid. */
  const C_SIZES: seq<nat> := [8, 4, 4, 8, 4, 8, 8]
  const C_OFFSETS: seq<nat> := [0, 8, 12, 16, 24, 32, 40]

  /** Fields: TS, CPU, NrRunning, RuntimeNS, Pad1, Pad2, TgPtr, Cgid. */
  const GO_SIZES: seq<nat> := [8, 4, 4, 8, 4, 4, 8, 8]

  const RECORD: nat := 48

  function Slot(raw: seq<Byte>, offset: nat, size: nat): seq<Byte>
    requires offset + size <= |raw|
  {
    raw[offset..offset + size]
  }

  lemma OffsetsForced(offsets: seq<nat>)
    requires NaturalLayout(C_SIZES, offsets)
    ensures offsets == C_OFFSETS
  {
    FirstAligned8(offsets[0], 0);
    assert FirstAligned(offsets[0], EndBefore(C_SIZES, offsets, 0), 8);
    FirstAligned4(offsets[1], 2);
    assert FirstAligned(offsets[1], EndBefore(C_SIZES, offsets, 1), 4);
    FirstAligned4(offsets[2], 3);
    assert FirstAligned(offsets[2], EndBefore(C_SIZES, offsets, 2), 4);
    FirstAligned8(offsets[3], 2);
    assert FirstAligned(offsets[3], EndBefore(C_SIZES, offsets, 3), 8);
    FirstAligned4(offsets[4], 6);
    FirstAligned8(offsets[5], 3);
    FirstAligned8(offsets[6], 5);
  }

  /** These are the only offsets natural alignment allows, and the record ends on a multiple of 8. */
  lemma CLayout(offsets: seq<nat>)
    requires |offsets| == 7
    ensures NaturalLayout(C_SIZES, offsets) <==> offsets == C_OFFSETS
    ensures offsets == C_OFFSETS ==> EndBefore(C_SIZES, offsets, 7) == RECORD
  {
    if NaturalLayout(C_SIZES, offsets) {
      OffsetsForced(offsets);
    }
  }

  lemma GoOffsets()
    ensures PackedOffset(GO_SIZES, 1) == 8 && PackedOffset(GO_SIZES, 2) == 12 && PackedOffset(GO_SIZES, 3) == 16
    ensures PackedOffset(GO_SIZES, 6) == 32 && PackedOffset(GO_SIZES, 7) == 40 && PackedOffset(GO_SIZES, 8) == RECORD
  {
    assert PackedOffset(GO_SIZES, 1) == 8;
    assert PackedOffset(GO_SIZES, 2) == 12;
    assert PackedOffset(GO_SIZES, 3) == 16;
    assert PackedOffset(GO_SIZES, 4) == 24;
    assert PackedOffset(GO_SIZES, 5) == 28;
    assert PackedOffset(GO_SIZES, 6) == 32;
    assert PackedOffset(GO_SIZES, 7) == 40;
  }

  /** `raw` holds `e` in members at these offsets. The `_pad` member is never written and the hole behind it
      is no member at all, so those bytes are whatever was there. */
  ghost predicate Holds(raw: seq<Byte>, offsets: seq<nat>, e: Event) {
    && |offsets| == 7 && |raw| == EndBefore(C_SIZES, offsets, 7)
    && (forall k :: 0 <= k < 7 ==> offsets[k] + C_SIZES[k] <= |raw|)
    && Slot(raw, offsets[0], C_SIZES[0]) == Bytes(e.ts, 8)
    && Slot(raw, offsets[1], C_SIZES[1]) == Bytes(e.cpu, 4)
    && Slot(raw, offsets[2], C_SIZES[2]) == Bytes(e.nrRunning, 4)
    && 0 <= Unsigned(e.runtimeNs, 8)
    && Slot(raw, offsets[3], C_SIZES[3]) == Bytes(Unsigned(e.runtimeNs, 8), 8)
    && Slot(raw, offsets[5], C_SIZES[5]) == Bytes(e.tgPtr, 8)
    && Slot(raw, offsets[6], C_SIZES[6]) == Bytes(e.cgid, 8)
  }

  function Field(raw: seq<Byte>, k: nat): nat
    requires k < |GO_SIZES| && PackedOffset(GO_SIZES, k) + GO_SIZES[k] <= |raw|
  {
    Number(Slot(raw, PackedOffset(GO_SIZES, k), GO_SIZES[k]))
  }

  /** Reading the record fails when it is too short; bytes behind it are left unread. */
  function Decode(raw: seq<Byte>): Option<Event> {
    if |raw| < RECORD then None
    else
      GoOffsets();
      Some(Event(Field(raw, 0), Field(raw, 1), Field(raw, 2), Signed(Field(raw, 3), 8), Field(raw, 6), Field(raw, 7)))
  }

  /** Whatever the unwritten bytes are, the agent reads back the event that the kernel program wrote, and its
      eight fields take up the whole record. */
  lemma WireRoundTrip(raw: seq<Byte>, offsets: seq<nat>, e: Event)
    requires e.Valid() && NaturalLayout(C_SIZES, offsets) && Holds(raw, offsets, e)
    ensures Decode(raw) == Some(e)
    ensures |raw| == PackedOffset(GO_SIZES, |GO_SIZES|)
  {
    CLayout(offsets);
    GoOffsets();
    NumberOfBytes(e.ts, 8);
    NumberOfBytes(e.cpu, 4);
    NumberOfBytes(e.nrRunning, 4);
    NumberOfBytes(Unsigned(e.runtimeNs, 8), 8);
    NumberOfBytes(e.tgPtr, 8);
    NumberOfBytes(e.cgid, 8);
  }

  /** The record as the kernel program leaves it, `junk` standing in the bytes nobody writes. */
  function Encode(e: Event, junk: seq<Byte>): seq<Byte>
    requires 0 <= Unsigned(e.runtimeNs, 8)
  {
    Bytes(e.ts, 8) + Bytes(e.cpu, 4) + Bytes(e.nrRunning, 4) + Bytes(Unsigned(e.runtimeNs, 8), 8) +
    junk + Bytes(e.tgPtr, 8) + Bytes(e.cgid, 8)
  }

  lemma EncodeLayout(e: Event, junk: seq<Byte>)
    requires 0 <= Unsigned(e.runtimeNs, 8) && |junk| == 8
    ensures var raw := Encode(e, junk);
            && |raw| == 48
            && raw[0..8] == Bytes(e.ts, 8) && raw[8..12] == Bytes(e.cpu, 4)
            && raw[12..16] == Bytes(e.nrRunning, 4) && raw[16..24] == Bytes(Unsigned(e.runtimeNs, 8), 8)
            && raw[24..32] == junk && raw[32..40] == Bytes(e.tgPtr, 8) && raw[40..48] == Bytes(e.cgid, 8)
  {}

  lemma EncodeDecode(e: Event, junk: seq<Byte>)
    requires e.Valid() && |junk| == 8
    ensures Decode(Encode(e, junk)) == Some(e)
  {
    CLayout(C_OFFSETS);
    EncodeLayout(e, junk);
    WireRoundTrip(Encode(e, junk), C_OFFSETS, e);
  }

  /** Decoding fails exactly for records that are too short, and looks at the first 48 bytes only. */
  lemma DecodeReads48(raw: seq<Byte>)
    ensures Decode(raw).None? <==> |raw| < 48
    ensures 48 <= |raw| ==> Decode(raw) == Decode(raw[..48])
  {
    if 48 <= |raw| {
      GoOffsets();
      assert forall i, k :: 0 <= i <= k <= 48 ==> raw[..48][i..k] == raw[i..k];
    }
  }
}
