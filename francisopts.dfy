/** Options of the multishift QR algorithm: two recommenders that choose,
    from the matrix size n, how many shifts a sweep uses and how large the
    aggressive early deflation window is, plus counters and thresholds with
    default values. The one floating-point band, n / log2(n) truncated for
    150 <= n < 590, is the parameter `band`. */
module FrancisOpts {

  /** The options record; the two recommenders are function-valued fields
      taking (n, nh). */
  datatype FrancisOpts = FrancisOpts(
    nshiftRecommender: (nat, nat) -> nat,
    deflationWindowRecommender: (nat, nat) -> nat,
    nAed: int,
    nSweep: int,
    nShiftsTotal: int,
    nmin: nat,
    nibble: nat)

  /** Default number of shifts for size n; nh is not consulted. */
  function NShift(band: nat -> nat, n: nat, nh: nat): nat
  {
    if n < 30 then 2
    else if n < 60 then 4
    else if n < 150 then 10
    else if n < 590 then band(n)
    else if n < 3000 then 64
    else if n < 6000 then 128
    else 256
  }

  /** Default deflation window for size n; nh is not consulted. */
  function DeflationWindow(band: nat -> nat, n: nat, nh: nat): nat
  {
    if n < 30 then 2
    else if n < 60 then 4
    else if n < 150 then 10
    else if n < 590 then band(n)
    else if n < 3000 then 96
    else if n < 6000 then 192
    else 384
  }

  /** The default-constructed options. */
  function Default(band: nat -> nat): (o: FrancisOpts)
    ensures o.nAed == 0 && o.nSweep == 0 && o.nShiftsTotal == 0
    ensures o.nmin == 75 && o.nibble == 14
    ensures forall n: nat, nh: nat :: o.nshiftRecommender(n, nh) == NShift(band, n, nh)
    ensures forall n: nat, nh: nat :: o.deflationWindowRecommender(n, nh) == DeflationWindow(band, n, nh)
  {
    FrancisOpts((n: nat, nh: nat) => NShift(band, n, nh),
                (n: nat, nh: nat) => DeflationWindow(band, n, nh),
                0, 0, 0, 75, 14)
  }

  /** The shift count's size bands: 2 below 30, 4 below 60, 10 below 150,
      64 from 590 below 3000, 128 below 6000 and 256 from 6000 on. */
  lemma NShiftBands(band: nat -> nat, n: nat, nh: nat)
    ensures n < 30 ==> NShift(band, n, nh) == 2
    ensures 30 <= n < 60 ==> NShift(band, n, nh) == 4
    ensures 60 <= n < 150 ==> NShift(band, n, nh) == 10
    ensures 590 <= n < 3000 ==> NShift(band, n, nh) == 64
    ensures 3000 <= n < 6000 ==> NShift(band, n, nh) == 128
    ensures 6000 <= n ==> NShift(band, n, nh) == 256
  {
  }

  /** Below 590 the deflation window equals the shift count; from 590 on it
      is one and a half times the shift count (96, 192, 384). */
  lemma WindowMatchesShifts(band: nat -> nat, n: nat, nh: nat)
    ensures n < 590 ==> DeflationWindow(band, n, nh) == NShift(band, n, nh)
    ensures 590 <= n ==> 2 * DeflationWindow(band, n, nh) == 3 * NShift(band, n, nh)
    ensures 590 <= n < 3000 ==> DeflationWindow(band, n, nh) == 96
    ensures 3000 <= n < 6000 ==> DeflationWindow(band, n, nh) == 192
    ensures 6000 <= n ==> DeflationWindow(band, n, nh) == 384
  {
  }

  /** Neither recommender depends on its second argument. */
  lemma IgnoresActiveSize(band: nat -> nat, n: nat, nh1: nat, nh2: nat)
    ensures NShift(band, n, nh1) == NShift(band, n, nh2)
    ensures DeflationWindow(band, n, nh1) == DeflationWindow(band, n, nh2)
  {
  }

  /** For every n and any active sizes, the deflation window is at least
      the number of shifts, whatever the floating-point band gives. */
  lemma WindowCoversShifts(band: nat -> nat, n: nat, nh1: nat, nh2: nat)
    ensures DeflationWindow(band, n, nh1) >= NShift(band, n, nh2)
  {
  }

  /** Both recommenders are at least 2 and never decrease with n, provided
      the band is nondecreasing and stays within [10, 64], as
      n / log2(n) does on [150, 590). */
  lemma RecommendersMonotone(band: nat -> nat, n1: nat, n2: nat, nh: nat)
    requires forall n | 150 <= n < 590 :: 10 <= band(n) <= 64
    requires forall a, b | 150 <= a <= b < 590 :: band(a) <= band(b)
    requires n1 <= n2
    ensures 2 <= NShift(band, n1, nh) <= NShift(band, n2, nh)
    ensures 2 <= DeflationWindow(band, n1, nh) <= DeflationWindow(band, n2, nh)
  {
    if 150 <= n1 < 590 {
      assert 10 <= band(n1) <= 64;
    }
    if 150 <= n2 < 590 {
      assert 10 <= band(n2) <= 64;
    }
  }
}
