/** The sigma-gate band of `scripts/eval_logic_band.py`, over exact reals. */
module SigmaBand {
  import opened Wrappers
  import opened RewardStats

  /** The gate on `k` successes in `n` rollouts: their standard deviation reaches `sigma`. */
  predicate Passes(sqrt: real -> real, n: int, k: int, sigma: real)
    requires n != 0
  {
    var p := k as real / n as real;
    sqrt(Times(p, 1.0 - p)) >= sigma
  }

  /** The passing counts below `upTo`, in ascending order. */
  function Passing(sqrt: real -> real, n: int, sigma: real, upTo: nat): (ok: seq<int>)
    requires n != 0
    ensures forall k :: k in ok <==> 0 <= k < upTo && Passes(sqrt, n, k, sigma)
    ensures ok == [] <==> forall k :: 0 <= k < upTo ==> !Passes(sqrt, n, k, sigma)
  {
    if upTo == 0 then [] else
    Passing(sqrt, n, sigma, upTo - 1) + if Passes(sqrt, n, upTo - 1, sigma) then [upTo - 1] else []
  }

  function Min(s: seq<int>): (m: int)
    requires s != []
    ensures m in s && forall x :: x in s ==> m <= x
  {
    if |s| == 1 then s[0] else
    var m := Min(s[1..]);
    assert s == [s[0]] + s[1..];
    if s[0] <= m then s[0] else m
  }

  function Max(s: seq<int>): (m: int)
    requires s != []
    ensures m in s && forall x :: x in s ==> x <= m
  {
    if |s| == 1 then s[0] else
    var m := Max(s[1..]);
    assert s == [s[0]] + s[1..];
    if s[0] >= m then s[0] else m
  }

  /** `band_bounds`: the least and the greatest passing count, or a default when none passes. */
  function BandBounds(sqrt: real -> real, n: int, sigma: real): Result<(int, int)>
  {
    if n == 0 then Err("division by zero") else
    var ok := Passing(sqrt, n, sigma, if n < 0 then 0 else n + 1);
    Ok(if ok != [] then (Min(ok), Max(ok)) else (1, n - 1))
  }

  predicate InBand(band: (int, int), k: int) { band.0 <= k <= band.1 }

  // ---------------------------------------------------------------- the gate as an inequality of products

  /** The gate without the root and the quotients. */
  ghost predicate Gate(n: int, k: int, sigma: real)
  {
    sigma <= 0.0 || (k * (n - k)) as real >= Threshold(n, sigma)
  }

  ghost function Threshold(n: int, sigma: real): real { Times(Times(sigma, sigma), n as real * n as real) }

  lemma TimesNonNegative(a: real, b: real)
    requires a >= 0.0 && b >= 0.0
    ensures Times(a, b) >= 0.0
  {
  }

  lemma RootReaches(x: real, root: real, sigma: real)
    requires root >= 0.0 && root * root == x
    ensures root >= sigma <==> sigma <= 0.0 || x >= Times(sigma, sigma)
  {
    if sigma > 0.0 {
      if root >= sigma {
        TimesNonNegative(root - sigma, root + sigma);
      } else {
        ProductPositive(sigma - root, sigma + root);
      }
      assert Times(root - sigma, root + sigma) == x - Times(sigma, sigma);
      assert Times(sigma - root, sigma + root) == Times(sigma, sigma) - x;
    }
  }

  lemma ProductOfShares(n: int, k: int)
    requires n > 0 && 0 <= k <= n
    ensures var p := k as real / n as real;
            Times(p, 1.0 - p) >= 0.0 && Times(Times(p, 1.0 - p), n as real * n as real) == (k * (n - k)) as real
  {
    var p, r := k as real / n as real, n as real;
    assert p * r == k as real;
    assert 0.0 <= p <= 1.0;
    assert (p * (1.0 - p)) * (r * r) == (p * r) * (r - p * r);
    assert k as real * (r - k as real) == (k * (n - k)) as real;
  }

  lemma ScaleBoth(a: real, b: real, c: real)
    requires c > 0.0
    ensures a >= b <==> Times(a, c) >= Times(b, c)
  {
    if a >= b {
      assert a * c >= b * c;
    } else {
      assert a * c < b * c;
    }
  }

  lemma PassesIsGate(sqrt: real -> real, n: int, k: int, sigma: real)
    requires IsSqrt(sqrt) && n > 0 && 0 <= k <= n
    ensures Passes(sqrt, n, k, sigma) <==> Gate(n, k, sigma)
  {
    var p := k as real / n as real;
    var x := Times(p, 1.0 - p);
    ProductOfShares(n, k);
    assert sqrt(x) >= 0.0 && sqrt(x) * sqrt(x) == x;
    RootReaches(x, sqrt(x), sigma);
    SquarePositive(n);
    ScaleBoth(x, Times(sigma, sigma), n as real * n as real);
  }

  lemma SquarePositive(n: int)
    requires n > 0
    ensures n as real * n as real > 0.0
  {
  }

  // ---------------------------------------------------------------- the shape of the band

  /** Between two counts the product is at least as large as at one of them. */
  lemma ProductBetween(n: int, a: int, k: int, b: int)
    requires a <= k <= b
    ensures k * (n - k) >= a * (n - a) || k * (n - k) >= b * (n - b)
  {
    assert k * (n - k) - a * (n - a) == (k - a) * (n - k - a);
    assert k * (n - k) - b * (n - b) == (b - k) * (k + b - n);
    if n - k - a >= 0 {
      ProductSign(k - a, n - k - a);
    } else {
      ProductSign(b - k, k + b - n);
    }
  }

  lemma ProductSign(a: int, b: int)
    ensures a >= 0 && b >= 0 ==> a * b >= 0
    ensures a <= 0 && b <= 0 ==> a * b >= 0
  {
  }

  /** The middle count has the largest product. */
  lemma MiddleIsLargest(n: int, k: int)
    requires n >= 0
    ensures (n / 2) * (n - n / 2) >= k * (n - k)
  {
    var m := n / 2;
    assert m * (n - m) - k * (n - k) == (m - k) * (n - m - k);
    if k <= m {
      ProductSign(m - k, n - m - k);
    } else {
      ProductSign(m - k, n - m - k);
    }
  }

  lemma GateMirrors(n: int, k: int, sigma: real)
    ensures Gate(n, k, sigma) == Gate(n, n - k, sigma)
  {
    assert k * (n - k) == (n - k) * (n - (n - k));
  }

  lemma GateBetween(n: int, a: int, k: int, b: int, sigma: real)
    requires a <= k <= b && Gate(n, a, sigma) && Gate(n, b, sigma)
    ensures Gate(n, k, sigma)
  {
    ProductBetween(n, a, k, b);
  }

  /** Some count passes. */
  ghost predicate BandNonEmpty(sqrt: real -> real, n: int, sigma: real)
    requires n > 0
  {
    exists k :: 0 <= k <= n && Passes(sqrt, n, k, sigma)
  }

  /** A band is non-empty exactly when half the group, rounded down, passes. */
  lemma NonEmptyIffMiddlePasses(sqrt: real -> real, n: int, sigma: real)
    requires IsSqrt(sqrt) && n > 0
    ensures BandNonEmpty(sqrt, n, sigma) <==> Passes(sqrt, n, n / 2, sigma)
  {
    hide Passes;
    if k :| 0 <= k <= n && Passes(sqrt, n, k, sigma) {
      PassesIsGate(sqrt, n, k, sigma);
      MiddleIsLargest(n, k);
      PassesIsGate(sqrt, n, n / 2, sigma);
    }
  }

  /** A non-empty band is one interval, symmetric about half the group, and holds exactly the passing counts. */
  lemma BandIsTheGate(sqrt: real -> real, n: int, sigma: real)
    requires IsSqrt(sqrt) && n > 0 && BandNonEmpty(sqrt, n, sigma)
    ensures var band := BandBounds(sqrt, n, sigma).value;
            && BandBounds(sqrt, n, sigma).Ok? && 0 <= band.0 <= band.1 <= n && band.0 + band.1 == n
            && forall k :: 0 <= k <= n ==> (InBand(band, k) <==> Passes(sqrt, n, k, sigma))
  {
    var ok := Passing(sqrt, n, sigma, n + 1);
    hide Passes, Passing;
    var w :| 0 <= w <= n && Passes(sqrt, n, w, sigma);
    assert w in ok;
    var low, high := Min(ok), Max(ok);
    Mirrored(sqrt, n, sigma, low);
    Mirrored(sqrt, n, sigma, high);
    assert n - low in ok && n - high in ok;
    forall k | 0 <= k <= n
      ensures low <= k <= high <==> Passes(sqrt, n, k, sigma)
    {
      if low <= k <= high {
        PassesIsGate(sqrt, n, low, sigma);
        PassesIsGate(sqrt, n, high, sigma);
        GateBetween(n, low, k, high, sigma);
        PassesIsGate(sqrt, n, k, sigma);
      } else {
        assert k !in ok;
      }
    }
  }

  lemma Mirrored(sqrt: real -> real, n: int, sigma: real, k: int)
    requires IsSqrt(sqrt) && n > 0 && 0 <= k <= n && Passes(sqrt, n, k, sigma)
    ensures Passes(sqrt, n, n - k, sigma)
  {
    hide Passes;
    PassesIsGate(sqrt, n, k, sigma);
    GateMirrors(n, k, sigma);
    PassesIsGate(sqrt, n, n - k, sigma);
  }

  /** The two-endpoint test is the gate for every count exactly when the band is non-empty or the group has one
      rollout: the default for an empty band admits every mixed group although none passes. */
  lemma InBandIffGate(sqrt: real -> real, n: int, sigma: real)
    requires IsSqrt(sqrt) && n > 0
    ensures (forall k :: 0 <= k <= n ==> (InBand(BandBounds(sqrt, n, sigma).value, k) <==> Passes(sqrt, n, k, sigma)))
            <==> BandNonEmpty(sqrt, n, sigma) || n == 1
  {
    if BandNonEmpty(sqrt, n, sigma) {
      BandIsTheGate(sqrt, n, sigma);
    } else {
      var ok := Passing(sqrt, n, sigma, n + 1);
      hide Passes, Passing;
      assert ok == [];
      assert BandBounds(sqrt, n, sigma).value == (1, n - 1);
      assert n >= 2 ==> InBand((1, n - 1), 1) && !Passes(sqrt, n, 1, sigma);
    }
  }

  /** No standard deviation of a share exceeds one half, so above it the gate is closed to every count. */
  lemma AboveHalfClosed(n: int, k: int, sigma: real)
    requires n > 0 && sigma > 0.5
    ensures !Gate(n, k, sigma)
  {
    var twice := n - 2 * k;
    assert 4 * (k * (n - k)) == n * n - twice * twice;
    ProductSign(twice, twice);
    assert 4.0 * (k * (n - k)) as real <= n as real * n as real by {
      assert (n * n) as real == n as real * n as real;
    }
    SquarePositive(n);
    assert Times(sigma, sigma) > 0.25 by { ProductPositive(sigma - 0.5, sigma + 0.5); }
    ProductPositive(Times(sigma, sigma) - 0.25, n as real * n as real);
  }

  /** Above one half the default takes over: no group passes, and every mixed group is admitted. */
  lemma DefaultAdmitsWhatFails(sqrt: real -> real, n: int, sigma: real)
    requires IsSqrt(sqrt) && n > 0 && sigma > 0.5
    ensures !BandNonEmpty(sqrt, n, sigma) && BandBounds(sqrt, n, sigma) == Ok((1, n - 1))
    ensures forall k :: InBand(BandBounds(sqrt, n, sigma).value, k) <==> 1 <= k <= n - 1
  {
    hide Passes, Gate;
    forall k | 0 <= k <= n
      ensures !Passes(sqrt, n, k, sigma)
    {
      PassesIsGate(sqrt, n, k, sigma);
      AboveHalfClosed(n, k, sigma);
    }
    assert Passing(sqrt, n, sigma, n + 1) == [];
  }

  /** At the production values the band is every mixed group. */
  lemma ProductionBand(sqrt: real -> real)
    requires IsSqrt(sqrt)
    ensures BandBounds(sqrt, 16, 0.24) == Ok((1, 15))
  {
    assert Threshold(16, 0.24) == 14.7456;
    PassesIsGate(sqrt, 16, 0, 0.24);
    PassesIsGate(sqrt, 16, 1, 0.24);
    hide Passes, Threshold;
    assert BandNonEmpty(sqrt, 16, 0.24);
    BandIsTheGate(sqrt, 16, 0.24);
    var band := BandBounds(sqrt, 16, 0.24).value;
    assert InBand(band, 1) && !InBand(band, 0);
  }

  // ---------------------------------------------------------------- groups of rewards

  /** `successes`: the rewards that reach one. */
  function Successes(rewards: seq<real>): nat
  {
    if rewards == [] then 0 else (if rewards[0] >= 1.0 then 1 else 0) + Successes(rewards[1..])
  }

  lemma {:induction false} SuccessesAreTheSum(rewards: seq<real>)
    requires AllBinary(rewards)
    ensures Sum(rewards) == Successes(rewards) as real && Successes(rewards) <= |rewards|
  {
    if rewards != [] {
      SuccessesAreTheSum(rewards[1..]);
    }
  }

  /** For a group of 0/1 rewards the band test is the gate on the group's own standard deviation. */
  lemma InBandIsSigmaGate(sqrt: real -> real, rewards: seq<real>, sigma: real)
    requires IsSqrt(sqrt) && rewards != [] && AllBinary(rewards) && BandNonEmpty(sqrt, |rewards|, sigma)
    ensures InBand(BandBounds(sqrt, |rewards|, sigma).value, Successes(rewards)) <==> sqrt(Variance(rewards)) >= sigma
  {
    hide BandBounds, Passing, Variance, Sum, Successes, IsSqrt, BandNonEmpty, InBand;
    var n, k := |rewards|, Successes(rewards);
    var p := k as real / n as real;
    SuccessesAreTheSum(rewards);
    assert Mean(rewards) == p;
    VarianceBound(rewards);
    assert Variance(rewards) == Times(p, 1.0 - p);
    hide Times;
    assert Passes(sqrt, n, k, sigma) <==> sqrt(Variance(rewards)) >= sigma;
    hide *;
    BandIsTheGate(sqrt, n, sigma);
  }
}
