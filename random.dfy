/** The helpers `rand` and `pick`. The value `Math.random()` returned is a
    parameter `u` with 0 <= u < 1, so both are functions of that draw. */
module Random {

  predicate IsDraw(u: real) {
    0.0 <= u < 1.0
  }

  /** `rand(min, max)`: Math.floor(u * (max - min + 1)) + min. */
  function Rand(min: int, max: int, u: real): (r: int)
    requires min <= max && IsDraw(u)
    ensures min <= r <= max
  {
    var width := (max - min + 1) as real;
    assert 0.0 <= u * width < width by {
      assert u * width < 1.0 * width;
    }
    (u * width).Floor + min
  }

  /** Every outcome of `rand` comes from an interval of draws of width
      1 / (max - min + 1): all outcomes are equally likely. */
  lemma RandOutcome(min: int, max: int, u: real, v: int)
    requires min <= max && IsDraw(u)
    ensures var width := (max - min + 1) as real;
            Rand(min, max, u) == v <==> (v - min) as real / width <= u < (v - min + 1) as real / width
  {
    var width := (max - min + 1) as real;
    var k := (v - min) as real;
    QuotientBelow(k, u, width);
    QuotientBelow(k + 1.0, u, width);
  }

  /** Dividing by a positive width keeps the order: x / w <= u exactly when
      x <= u * w. */
  lemma QuotientBelow(x: real, u: real, w: real)
    requires w > 0.0
    ensures x / w <= u <==> x <= u * w
  {
    var q := x / w;
    assert q * w == x;
    if q <= u {
      assert (u - q) * w >= 0.0;
    } else {
      assert (q - u) * w > 0.0;
    }
  }

  /** `pick(arr)`: the element at a random index. */
  function Pick<T>(items: seq<T>, u: real): (r: T)
    requires |items| > 0 && IsDraw(u)
    ensures r in items
  {
    items[Rand(0, |items| - 1, u)]
  }

  /** Each element is picked for an interval of draws of width 1 / |items|. */
  lemma PickOutcome<T>(items: seq<T>, u: real, k: nat)
    requires k < |items| && IsDraw(u)
    ensures k as real / |items| as real <= u < (k + 1) as real / |items| as real ==> Pick(items, u) == items[k]
  {
    RandOutcome(0, |items| - 1, u, k);
  }
}
