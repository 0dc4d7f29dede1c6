/** The once-per-interval figures: a byte count split with decimal
    (1000-based) prefixes into a whole number of giga-units and a number of
    mega-units below the next giga-unit, printed as `ggg.mmm`. */
module Throughput {
  import opened Config

  /** A value shown as `whole.thousandths` giga-units. */
  datatype Fixed3 = Fixed3(whole: nat, thousandths: nat)

  /** `x` lies in the mega-unit the figure `f` names. */
  predicate Names(f: Fixed3, x: nat)
  {
    && f.thousandths < 1000
    && f.whole * GB + f.thousandths * MB <= x < f.whole * GB + (f.thousandths + 1) * MB
  }

  /** `x / GB` and `(x % GB) / MB`: the figure for `x`, truncated to a whole
      mega-unit. */
  function Split(x: nat): (f: Fixed3)
    ensures Names(f, x)
  {
    var w := x / GB;
    var rest := x % GB;
    var m := rest / MB;
    assert x == w * GB + rest;
    assert rest == m * MB + rest % MB;
    Fixed3(w, m)
  }

  /** A mega-unit is named by exactly one figure, so `Split` is the only
      answer the contract of `Split` allows. */
  lemma SplitUnique(f: Fixed3, x: nat)
    ensures Names(f, x) <==> f == Split(x)
  {
    if Names(f, x) {
      assert (f.thousandths + 1) * MB <= GB;
      GigaUnique(x, f.whole, x - f.whole * GB);
      MegaUnique(x % GB, f.thousandths, x % GB - f.thousandths * MB);
    }
  }

  /** The quotient and remainder by `GB` are the only such pair. */
  lemma GigaUnique(x: nat, q: nat, r: nat)
    requires x == q * GB + r && r < GB
    ensures q == x / GB && r == x % GB
  {
  }

  /** The quotient and remainder by `MB` are the only such pair. */
  lemma MegaUnique(x: nat, q: nat, r: nat)
    requires x == q * MB + r && r < MB
    ensures q == x / MB && r == x % MB
  {
  }

  /** The "Bandwidth" figure for `delta` bytes sent in one interval: the
      bits, `8 * delta`, in Gbit and Mbit. */
  function Bandwidth(delta: nat): (f: Fixed3)
    ensures Names(f, 8 * delta)
  {
    Split(8 * delta)
  }

  /** The "Transfer" figure for `delta` bytes, in decimal gigabytes and
      megabytes despite the binary-sounding `gib`/`mib` names the values are
      held under. */
  function Transfer(delta: nat): (f: Fixed3)
    ensures Names(f, delta)
  {
    Split(delta)
  }

  /** 1.2 GB in one interval shows as 1.200 GBytes and 9.600 Gbit/s. */
  lemma ExampleInterval()
    ensures Transfer(1200000000) == Fixed3(1, 200)
    ensures Bandwidth(1200000000) == Fixed3(9, 600)
  {
  }
}
