/** The test suite's random number generator: a 64-bit linear congruential
    generator with Knuth's MMIX multiplier and increment. Each call advances
    the 64-bit state and returns its upper 32 bits. */
module RandGen {

  const Multiplier: nat := 6364136223846793005
  const Increment: nat := 1442695040888963407
  const Modulus64: nat := 0x1_0000_0000_0000_0000
  const Shift32: nat := 0x1_0000_0000
  const DefaultSeed: nat := 1302

  /** The recurrence state := state * a + c on uint64. */
  function Next(state: nat): (s: nat)
    ensures s < Modulus64
  {
    (state * Multiplier + Increment) % Modulus64
  }

  /** The returned value: the state shifted right by 32 bits. */
  function Output(state: nat): nat
  {
    state / Shift32
  }

  /** The state after `count` calls, starting from `state`. */
  function Advance(state: nat, count: nat): (s: nat)
    ensures count > 0 ==> s < Modulus64
  {
    if count == 0 then state else Next(Advance(state, count - 1))
  }

  /** The value returned by call number t (from 0) after the state `state`. */
  function Draw(state: nat, t: nat): nat
  {
    Output(Advance(state, t + 1))
  }

  /** The values of `count` successive calls from `state`. */
  function Draws(state: nat, count: nat): (xs: seq<nat>)
    ensures |xs| == count
  {
    seq(count, t requires 0 <= t < count => Draw(state, t))
  }

  /** `min()` and `max()`: every value returned lies in [0, 2^32 - 1]. */
  const MinValue: nat := 0
  const MaxValue: nat := Shift32 - 1

  lemma DrawInRange(state: nat, t: nat)
    ensures MinValue <= Draw(state, t) <= MaxValue
  {
  }

  /** A generator object: the state it carries is a uint64. */
  class RandGenerator {
    var state: nat

    ghost predicate Valid()
      reads this
    {
      state < Modulus64
    }

    /** A new generator starts from the default seed 1302. */
    constructor()
      ensures Valid() && state == DefaultSeed
    {
      state := DefaultSeed;
    }

    /** `seed(s)` sets the state to s. */
    method Seed(s: nat)
      requires s < Modulus64
      modifies this
      ensures Valid() && state == s
    {
      state := s;
    }

    /** `operator()`: advance the state once and return its upper 32 bits,
        a value in [min(), max()] equal to Draw(old(state), 0). */
    method Call() returns (x: nat)
      requires Valid()
      modifies this
      ensures Valid() && state == Next(old(state))
      ensures x == Draw(old(state), 0) && MinValue <= x <= MaxValue
    {
      ghost var s0 := state;
      state := Next(state);
      x := Output(state);
      assert Advance(s0, 1) == Next(Advance(s0, 0)) == state;
      DrawInRange(s0, 0);
    }
  }

  /** The states after each of the first seven calls after seed(6845315). */
  lemma SeedStates(s0: nat)
    requires s0 == 6845315
    ensures Advance(s0, 1) == 5263833646398229590
    ensures Advance(s0, 2) == 8526846858969486957
    ensures Advance(s0, 3) == 1291193747977307512
    ensures Advance(s0, 4) == 11322883735677927271
    ensures Advance(s0, 5) == 6886533000829468522
    ensures Advance(s0, 6) == 1691389626257308913
    ensures Advance(s0, 7) == 15638797518363199148
  {
  }

  /** After seed(6845315) the first seven calls return the values the test
      suite expects. */
  lemma SeededSequence(s0: nat)
    requires s0 == 6845315
    ensures Draws(s0, 7) == [1225581775, 1985311242, 300629471, 2636314308, 1603395911, 393807335, 3641191292]
  {
    SeedStates(s0);
  }
}
