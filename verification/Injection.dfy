/** Using a hit: validate_entry and inject_result. */
module Injection {
  import opened Words
  import opened Entries
  import opened Payloads
  import opened System
  import opened SystemInvariant
  import opened SystemTheorems

  // --- validate_entry ---

  predicate ValidateEntry(e: Option<Entry>, mm: u64, jiffies: u64) {
    if e.None? || mm == 0 then false
    else if e.value.mmGeneration != mm then false
    else if e.value.mm != mm then false
    else if TimeAfter(jiffies, e.value.expiry) then false
    else true
  }

  // The strict test of the lookup and the lax one of the validation, on any words.
  lemma BeforeAndNotAfter(j: u64, x: u64)
    ensures TimeBefore(j, x) && TimeAfter(j, x) <==> Wrap(j - x) == HALF
    ensures !TimeBefore(j, x) && !TimeAfter(j, x) <==> j == x
  {
    if j >= x {
      assert Wrap(j - x) == j - x;
      assert j > x ==> Wrap(x - j) == WORD - (j - x);
    } else {
      assert Wrap(x - j) == x - j && Wrap(j - x) == WORD - (x - j);
    }
  }

  /** A hit for a non-NULL mm passes validate_entry at the same instant, except at the
      one instant of each clock cycle exactly 2^63 ticks after the expiry, where the two
      time macros both hold; that instant is out of reach before 2^63 + ttl ticks. */
  lemma HitValidates(g: Config, calls: seq<Call>, c: nat, fingerprint: u64, mm: u64)
    requires ValidConfig(g) && ValidCalls(g, calls) && c < |g.nodeOf| && mm != 0
    requires Answer(g, Run(g, Init(g), calls), c, fingerprint, mm).Some?
    ensures var s := Run(g, Init(g), calls);
            var e := Answer(g, s, c, fingerprint, mm).value;
            && (ValidateEntry(Some(e), mm, Jiffies(g, s)) <==> (s.now - e.born) % WORD != HALF + g.ttl)
            && (s.now < e.born + HALF + g.ttl ==> ValidateEntry(Some(e), mm, Jiffies(g, s)))
  {
    InitInv(g);
    RunInv(g, Init(g), calls);
    var s := Run(g, Init(g), calls);
    AnswerHas(g, s, c, fingerprint, mm);
    var e := Answer(g, s, c, fingerprint, mm).value;
    BeforeAndNotAfter(Jiffies(g, s), e.expiry);
    BothAt(g.boot, g.ttl, e.born, s.now);
  }

  /** Such a hit exists: a run in which a lookup returns an entry that fails the validation
      at the same instant. */
  lemma HitFailsValidation(g: Config, c: nat, fingerprint: u64, mm: u64)
    requires ValidConfig(g) && c < |g.nodeOf| && mm != 0
    ensures var calls := [StoreResult(c, fingerprint, Some([1]), mm, Allocator(true, 0)), Ticks(HALF + g.ttl)];
            && ValidCalls(g, calls)
            && var s := Run(g, Init(g), calls);
               Answer(g, s, c, fingerprint, mm).Some?
               && !ValidateEntry(Answer(g, s, c, fingerprint, mm), mm, Jiffies(g, s))
  {
    var calls := [StoreResult(c, fingerprint, Some([1]), mm, Allocator(true, 0)), Ticks(HALF + g.ttl)];
    OldEntryComesBack(g, c, fingerprint, mm);
    HitValidates(g, calls, c, fingerprint, mm);
  }

  // The instants at which a clock reading is both before and after an expiry.
  lemma BothAt(boot: u64, ttl: nat, born: nat, now: nat)
    requires ttl < HALF && born <= now
    ensures Wrap(Clock(boot, now) - ExpiryWord(boot, ttl, born)) == HALF <==> (now - born) % WORD == HALF + ttl
    ensures now < born + HALF + ttl ==> (now - born) % WORD != HALF + ttl
  {
    WrapAge(boot, ttl, born, now);
    var age := (now - born) % WORD;
    assert Wrap(age - ttl) == if age >= ttl then age - ttl else age - ttl + WORD;
  }

  /** The validation outlives the lookup by one tick: at the expiry instant itself an
      entry still validates and is no longer found. */
  lemma ValidatesAtExpiry(e: Entry, mm: u64)
    requires mm != 0 && e.mm == mm && e.mmGeneration == mm
    ensures ValidateEntry(Some(e), mm, e.expiry) && !TimeBefore(e.expiry, e.expiry)
  {
    BeforeAndNotAfter(e.expiry, e.expiry);
  }

  /** Isolation: an entry that any CPU is given in any run validates for no mm but the one
      it was stored for, at no time; and never for a NULL entry or a NULL mm. */
  lemma ForeignNeverValidates(g: Config, calls: seq<Call>, c: nat, fingerprint: u64, mm: u64, other: u64, j: u64)
    requires ValidConfig(g) && ValidCalls(g, calls) && c < |g.nodeOf|
    requires Answer(g, Run(g, Init(g), calls), c, fingerprint, mm).Some?
    ensures other != mm || mm == 0 ==> !ValidateEntry(Answer(g, Run(g, Init(g), calls), c, fingerprint, mm), other, j)
    ensures !ValidateEntry(None, other, j)
  {
    InitInv(g);
    RunInv(g, Init(g), calls);
    AnswerHas(g, Run(g, Init(g), calls), c, fingerprint, mm);
  }

  /** Each of the two mm tests counts: an entry whose pointer or whose generation belongs to
      another mm is refused, whatever the other says. */
  lemma BothMmTestsCount(e: Entry, mm: u64, j: u64)
    ensures e.mm != mm || e.mmGeneration != mm ==> !ValidateEntry(Some(e), mm, j)
  {
  }

  // --- inject_result ---

  datatype Registers = Registers(ax: u64, bx: u64, cx: u64, dx: u64, si: u64, di: u64, bp: u64, sp: u64, ip: u64)

  const MASK_RBX: u8 := 2
  const MASK_RCX: u8 := 4
  const MASK_RDX: u8 := 8
  const MASK_RSI: u8 := 16
  const MASK_RDI: u8 := 32
  const MASK_RBP: u8 := 64
  const MASK_RSP: u8 := 128

  // mask & bit, for a one-bit word.
  predicate Selects(mask: u8, bit: u8)
    requires 0 < bit
  {
    (mask / bit) % 2 == 1
  }

  function Restored(mask: u8, bit: u8, kept: u64, word: u64): u64
    requires 0 < bit
  {
    if Selects(mask, bit) then word else kept
  }

  // The registers after the injection of e.
  function Injected(r: Registers, e: Entry): Registers
    requires |e.result| == RESULT_SIZE_MAX
  {
    var m, p := e.registerMask, e.result;
    Registers(
      Restored(m, MASK_RAX, r.ax, ResultWord(p, 0)), Restored(m, MASK_RBX, r.bx, ResultWord(p, 1)),
      Restored(m, MASK_RCX, r.cx, ResultWord(p, 2)), Restored(m, MASK_RDX, r.dx, ResultWord(p, 3)),
      Restored(m, MASK_RSI, r.si, ResultWord(p, 4)), Restored(m, MASK_RDI, r.di, ResultWord(p, 5)),
      Restored(m, MASK_RBP, r.bp, ResultWord(p, 6)), Restored(m, MASK_RSP, r.sp, ResultWord(p, 7)),
      Wrap(r.ip + e.fragmentLength))
  }

  class PtRegs {
    var ax: u64
    var bx: u64
    var cx: u64
    var dx: u64
    var si: u64
    var di: u64
    var bp: u64
    var sp: u64
    var ip: u64

    function View(): Registers
      reads this
    {
      Registers(ax, bx, cx, dx, si, di, bp, sp, ip)
    }
  }

  // The four restores selected by the low half of the mask.
  method RestoreLow(regs: PtRegs, mask: u8, payload: seq<u8>)
    requires |payload| == RESULT_SIZE_MAX
    modifies regs`ax, regs`bx, regs`cx, regs`dx
    ensures regs.ax == Restored(mask, MASK_RAX, old(regs.ax), ResultWord(payload, 0))
    ensures regs.bx == Restored(mask, MASK_RBX, old(regs.bx), ResultWord(payload, 1))
    ensures regs.cx == Restored(mask, MASK_RCX, old(regs.cx), ResultWord(payload, 2))
    ensures regs.dx == Restored(mask, MASK_RDX, old(regs.dx), ResultWord(payload, 3))
  {
    if Selects(mask, MASK_RAX) { regs.ax := ResultWord(payload, 0); }
    if Selects(mask, MASK_RBX) { regs.bx := ResultWord(payload, 1); }
    if Selects(mask, MASK_RCX) { regs.cx := ResultWord(payload, 2); }
    if Selects(mask, MASK_RDX) { regs.dx := ResultWord(payload, 3); }
  }

  // The four restores selected by the high half.
  method RestoreHigh(regs: PtRegs, mask: u8, payload: seq<u8>)
    requires |payload| == RESULT_SIZE_MAX
    modifies regs`si, regs`di, regs`bp, regs`sp
    ensures regs.si == Restored(mask, MASK_RSI, old(regs.si), ResultWord(payload, 4))
    ensures regs.di == Restored(mask, MASK_RDI, old(regs.di), ResultWord(payload, 5))
    ensures regs.bp == Restored(mask, MASK_RBP, old(regs.bp), ResultWord(payload, 6))
    ensures regs.sp == Restored(mask, MASK_RSP, old(regs.sp), ResultWord(payload, 7))
  {
    if Selects(mask, MASK_RSI) { regs.si := ResultWord(payload, 4); }
    if Selects(mask, MASK_RDI) { regs.di := ResultWord(payload, 5); }
    if Selects(mask, MASK_RBP) { regs.bp := ResultWord(payload, 6); }
    if Selects(mask, MASK_RSP) { regs.sp := ResultWord(payload, 7); }
  }

  // The entry is never NULL: the code reads its mask before it tests the pointer.
  method InjectResult(regs: PtRegs?, e: Entry)
    requires |e.result| == RESULT_SIZE_MAX
    modifies regs
    ensures regs != null ==> regs.View() == Injected(old(regs.View()), e)
  {
    if regs != null {
      RestoreLow(regs, e.registerMask, e.result);
      RestoreHigh(regs, e.registerMask, e.result);
      regs.ip := Wrap(regs.ip + e.fragmentLength);
    }
  }

  // --- what the mask means ---

  // The registers in the order of their mask bits.
  function Reg(r: Registers, i: nat): u64
    requires i < 8
  {
    [r.ax, r.bx, r.cx, r.dx, r.si, r.di, r.bp, r.sp][i]
  }

  // Bit i of the mask.
  predicate Bit(mask: u8, i: nat) {
    (mask / Power2(i)) % 2 == 1
  }

  function Power2(i: nat): (p: nat)
    ensures p > 0
  {
    if i == 0 then 1 else 2 * Power2(i - 1)
  }

  // Eight registers laid out as the words of a result field.
  function Saved(r: Registers, n: nat): (bs: seq<u8>)
    requires n <= 8
    ensures |bs| == 8 * n
  {
    if n == 0 then [] else Saved(r, n - 1) + Bytes(Reg(r, n - 1), 8)
  }

  lemma {:induction false} SavedWord(r: Registers, n: nat, i: nat)
    requires i < n <= 8
    ensures Saved(r, n)[8 * i..8 * i + 8] == Bytes(Reg(r, i), 8)
  {
    if i == n - 1 {
      assert Saved(r, n)[8 * i..8 * i + 8] == Bytes(Reg(r, i), 8);
    } else {
      SavedWord(r, n - 1, i);
      assert Saved(r, n)[..8 * (n - 1)] == Saved(r, n - 1);
      assert Saved(r, n)[8 * i..8 * i + 8] == Saved(r, n - 1)[8 * i..8 * i + 8];
    }
  }

  /** Saving eight registers into a result field and injecting it restores exactly those
      the mask selects, bit by bit in the order RAX to RSP, keeps the others, and moves ip
      on by the fragment length. */
  lemma InjectionRoundTrip(from: Registers, to: Registers, e: Entry, i: nat)
    requires e.result == Saved(from, 8) && i < 8
    ensures Reg(Injected(to, e), i) == if Bit(e.registerMask, i) then Reg(from, i) else Reg(to, i)
    ensures Injected(to, e).ip == Wrap(to.ip + e.fragmentLength)
  {
    SavedWord(from, 8, i);
    PowerValues();
    BytesRoundTrip(Reg(from, i), 8);
    MaskBits();
  }

  lemma MaskBits()
    ensures Power2(0) == MASK_RAX && Power2(1) == MASK_RBX && Power2(2) == MASK_RCX && Power2(3) == MASK_RDX
    ensures Power2(4) == MASK_RSI && Power2(5) == MASK_RDI && Power2(6) == MASK_RBP && Power2(7) == MASK_RSP
  {
    assert Power2(3) == 8 && Power2(5) == 4 * Power2(3) && Power2(7) == 4 * Power2(5);
  }

  // A stored entry selects RAX and skips nothing.
  lemma OnlyAx(r: Registers, e: Entry)
    requires |e.result| == RESULT_SIZE_MAX && e.registerMask == MASK_RAX && e.fragmentLength == 0
    ensures Injected(r, e) == r.(ax := ExtData(e.result))
  {
  }

  /** Injecting any hit of any run changes `ax` alone and leaves `ip` where it was. The
      value put in `ax` is the first word of the entry's union: always 0 for a small
      result, the block's pointer for a large one. */
  lemma InjectionOfHit(g: Config, calls: seq<Call>, c: nat, fingerprint: u64, mm: u64, r: Registers)
    requires ValidConfig(g) && ValidCalls(g, calls) && c < |g.nodeOf|
    requires Answer(g, Run(g, Init(g), calls), c, fingerprint, mm).Some?
    ensures var e := Answer(g, Run(g, Init(g), calls), c, fingerprint, mm).value;
            && |e.result| == RESULT_SIZE_MAX
            && Injected(r, e) == r.(ax := ExtData(e.result))
            && (e.slot.None? ==> Injected(r, e).ax == 0)
  {
    InitInv(g);
    RunInv(g, Init(g), calls);
    var s := Run(g, Init(g), calls);
    AnswerHas(g, s, c, fingerprint, mm);
    var e := Answer(g, s, c, fingerprint, mm).value;
    NumberZero(e.result[0..8]);
    OnlyAx(r, e);
  }

  /** So the injected register is the small result's own first word exactly when that
      word is zero; a caller can test the first eight bytes before storing. */
  lemma InjectionRestoresExactly(data: seq<u8>, r: Registers, e: Entry)
    requires |data| <= RESULT_SIZE_MAX && e.result == InlinePayload(data) && e.registerMask == MASK_RAX
    ensures Injected(r, e).ax == ResultWord(Overwrite(Zeros(RESULT_SIZE_MAX), 0, data), 0)
            <==> forall i :: 0 <= i < |data| && i < 8 ==> data[i] == 0
  {
    InlineFirstWord(data);
  }
}
