/** Machine words of the kernel: 64-bit wrap-around, bytes, and the jiffies
    comparison macros `time_before` and `time_after`. */
module Words {
  const WORD: int := 0x1_0000_0000_0000_0000
  const HALF: int := 0x8000_0000_0000_0000

  type u64 = x: int | 0 <= x < WORD
  type u32 = x: int | 0 <= x < 0x1_0000_0000
  type u16 = x: int | 0 <= x < 0x1_0000
  type u8 = x: int | 0 <= x < 0x100

  datatype Option<+T> = None | Some(value: T)

  function Wrap(x: int): u64 {
    x % WORD
  }

  // (long)(a - b) < 0 on 64-bit words.
  predicate TimeBefore(a: u64, b: u64) {
    Wrap(a - b) >= HALF
  }

  // (long)(b - a) < 0 on 64-bit words.
  predicate TimeAfter(a: u64, b: u64) {
    Wrap(b - a) >= HALF
  }

  // The jiffies counter after `ticks` timer interrupts.
  function Clock(boot: u64, ticks: nat): u64 {
    Wrap(boot + ticks)
  }

  // The expiry word of an entry stored at tick `born` with lifetime `ttl`.
  function ExpiryWord(boot: u64, ttl: nat, born: nat): u64 {
    Wrap(Clock(boot, born) + ttl)
  }

  // What a lookup at tick `now` decides about an entry stored at tick `born`.
  predicate Accepts(boot: u64, ttl: nat, born: nat, now: nat) {
    TimeBefore(Clock(boot, now), ExpiryWord(boot, ttl, born))
  }

  /** The expiry test for every elapsed time: it sees the elapsed time modulo
      2^64 only, and in each such cycle it accepts the first `ttl` ticks and the
      last 2^63 - `ttl` ticks. */
  lemma AcceptsExactly(boot: u64, ttl: nat, born: nat, now: nat)
    requires ttl <= HALF && born <= now
    ensures Accepts(boot, ttl, born, now) <==>
            ((now - born) % WORD < ttl || (now - born) % WORD >= HALF + ttl)
  {
    var a := (now - born) % WORD;
    WrapAge(boot, ttl, born, now);
    if a < ttl {
      assert Wrap(a - ttl) == a - ttl + WORD;
    } else {
      assert Wrap(a - ttl) == a - ttl;
    }
  }

  lemma WrapAge(boot: u64, ttl: nat, born: nat, now: nat)
    requires born <= now
    ensures Wrap(Clock(boot, now) - ExpiryWord(boot, ttl, born)) == Wrap((now - born) % WORD - ttl)
  {
    ModCongruent(boot + now);
    ModCongruent(boot + born);
    ModCongruent(Clock(boot, born) + ttl);
    ModCongruent(now - born);
    var k := (boot + now) / WORD - (boot + born) / WORD
             - (Clock(boot, born) + ttl) / WORD - (now - born) / WORD;
    assert Clock(boot, now) - ExpiryWord(boot, ttl, born) == (now - born) % WORD - ttl - WORD * k;
    ModShift((now - born) % WORD - ttl, -k);
  }

  lemma ModCongruent(x: int)
    ensures x == WORD * (x / WORD) + x % WORD
  {
  }

  lemma ModShift(x: int, k: int)
    ensures (x + WORD * k) % WORD == x % WORD
  {
  }

  /** Within 2^63 + ttl ticks of the store the test is exactly "younger than the
      TTL", so a rejection stays a rejection inside that window. */
  lemma AcceptsIffFresh(boot: u64, ttl: nat, born: nat, now: nat)
    requires ttl < HALF && born <= now && now - born < HALF + ttl
    ensures Accepts(boot, ttl, born, now) <==> now - born < ttl
  {
    AcceptsExactly(boot, ttl, born, now);
  }

  /** The window is sharp: one tick later the expired entry is accepted again. */
  lemma AcceptsAgain(boot: u64, ttl: nat, born: nat)
    requires ttl < HALF
    ensures Accepts(boot, ttl, born, born + HALF + ttl)
    ensures !Accepts(boot, ttl, born, born + HALF + ttl - 1)
  {
    var now := born + HALF + ttl;
    assert (now - born) % WORD == HALF + ttl && (now - 1 - born) % WORD == HALF + ttl - 1;
    AcceptsExactly(boot, ttl, born, now);
    AcceptsExactly(boot, ttl, born, now - 1);
  }
}
