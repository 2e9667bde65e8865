/** Index arithmetic of the hero banner: the rotation of the current clip
    index, the three video slots derived from it, and the loading percentage.
    `n` is the number of clips (`totalVideos`, 4 in the component); clips are
    numbered 1..n. */
module HeroSlots {

  /** The clip index after one activation, `(i % n) + 1`: it walks
      1, 2, ..., n and wraps from n back to 1, and it always moves. */
  function Rotate(i: nat, n: nat): (r: nat)
    requires n >= 2
    ensures 1 <= r <= n
    ensures r != i
    ensures 1 <= i < n ==> r == i + 1
    ensures i == n ==> r == 1
  {
    (i % n) + 1
  }

  /** `k` activations in a row, starting from index `i`. */
  function RotateN(i: nat, k: nat, n: nat): nat
    requires n >= 2
  {
    if k == 0 then i else Rotate(RotateN(i, k - 1, n), n)
  }

  /** Clip shown in the small interactive preview tile: always a valid clip,
      and the one the next activation makes current. */
  function MiniPreviewSlot(i: nat, n: nat): (r: nat)
    requires n >= 2
    ensures 1 <= r <= n
    ensures r == Rotate(i, n)
  {
    (i % n) + 1
  }

  /** Clip loaded into the (initially invisible) element that grows to full
      screen on the next transition: the current clip, valid while the index
      is, and never the preview tile's clip. */
  function NextVideoSlot(i: nat, n: nat): (r: nat)
    requires n >= 2
    ensures 1 <= i <= n ==> 1 <= r <= n
    ensures r != MiniPreviewSlot(i, n)
  {
    i
  }

  /** Clip shown as the full-screen background. The wraparound is taken at
      `n - 1`, exactly as the component's condition reads: the background is
      the incoming clip or clip 1, valid while the index is, and never the
      preview tile's clip. */
  function BackgroundSlot(i: nat, n: nat): (r: nat)
    requires n >= 2
    ensures r == NextVideoSlot(i, n) || r == 1
    ensures 1 <= i <= n ==> 1 <= r <= n
    ensures 1 <= i <= n ==> r != MiniPreviewSlot(i, n)
  {
    if i == n - 1 then 1 else i
  }

  /** The preview tile shows the clip after the current one, wrapping n to 1,
      which is exactly the clip the next activation promotes to the
      transition element. */
  lemma MiniPreviewIsNextIncoming(i: nat, n: nat)
    requires n >= 2 && 1 <= i <= n
    ensures MiniPreviewSlot(i, n) == (if i == n then 1 else i + 1)
    ensures MiniPreviewSlot(i, n) == NextVideoSlot(Rotate(i, n), n)
  {
  }

  /** The background equals the incoming clip, except at index `n - 1`, where
      it is clip 1; and it never shows the same clip as the preview tile. */
  lemma BackgroundSlotSpec(i: nat, n: nat)
    requires n >= 2 && 1 <= i <= n
    ensures BackgroundSlot(i, n) == 1 <==> i == 1 || i == n - 1
    ensures i != n - 1 ==> BackgroundSlot(i, n) == NextVideoSlot(i, n)
    ensures BackgroundSlot(i, n) != MiniPreviewSlot(i, n)
  {
  }

  /** `k * a <= k * b` for a non-negative factor `k`. */
  lemma MulMonotone(k: nat, a: int, b: int)
    requires a <= b
    ensures k * a <= k * b
  {
  }

  /** `x % n == r` whenever `x` splits as `q * n + r` with `0 <= r < n`. */
  lemma ModOfSplit(x: int, q: int, r: int, n: int)
    requires n > 0 && 0 <= r < n && x == q * n + r
    ensures x % n == r && x / n == q
  {
    var q', r' := x / n, x % n;
    assert q' * n + r' == q * n + r;
    assert (q' - q) * n == r - r';
    if q' > q {
      MulMonotone(n, 1, q' - q);
    } else if q' < q {
      MulMonotone(n, 1, q - q');
    }
  }

  /** Adding one before or after reducing modulo `n` gives the same residue. */
  lemma ModSucc(x: nat, n: nat)
    requires n >= 1
    ensures ((x % n) + 1) % n == (x + 1) % n
  {
    var q, a := x / n, x % n;
    if a + 1 < n {
      ModOfSplit(a + 1, 0, a + 1, n);
      ModOfSplit(x + 1, q, a + 1, n);
    } else {
      ModOfSplit(a + 1, 1, 0, n);
      ModOfSplit(x + 1, q + 1, 0, n);
    }
  }

  /** Closed form of repeated activation: position `i` moves `k` steps round
      the cycle 1..n. */
  lemma {:induction false} RotateNClosedForm(i: nat, k: nat, n: nat)
    requires n >= 2 && 1 <= i <= n
    ensures RotateN(i, k, n) == (i - 1 + k) % n + 1
  {
    if k == 0 {
      ModOfSplit(i - 1, 0, i - 1, n);
    } else {
      RotateNClosedForm(i, k - 1, n);
      ModSucc(i - 1 + (k - 1), n);
    }
  }

  /** Starting anywhere in 1..n, the index visits n distinct positions and
      is back where it started after exactly n activations, and not before. */
  lemma {:induction false} RotationPeriod(i: nat, n: nat)
    requires n >= 2 && 1 <= i <= n
    ensures RotateN(i, n, n) == i
    ensures forall j, k :: 0 <= j < k < n ==> RotateN(i, j, n) != RotateN(i, k, n)
    ensures forall k :: 0 < k < n ==> RotateN(i, k, n) != i
  {
    RotateNClosedForm(i, n, n);
    ModOfSplit(i - 1 + n, 1, i - 1, n);
    forall j, k | 0 <= j < k < n
      ensures RotateN(i, j, n) != RotateN(i, k, n)
    {
      RotationsDiffer(i, j, k, n);
    }
    forall k | 0 < k < n
      ensures RotateN(i, k, n) != i
    {
      RotationsDiffer(i, 0, k, n);
    }
  }

  lemma RotationsDiffer(i: nat, j: nat, k: nat, n: nat)
    requires n >= 2 && 1 <= i <= n && 0 <= j < k < n
    ensures RotateN(i, j, n) != RotateN(i, k, n)
  {
    RotateNClosedForm(i, j, n);
    RotateNClosedForm(i, k, n);
    var a, b := i - 1 + j, i - 1 + k;
    if a < n { ModOfSplit(a, 0, a, n); } else { ModOfSplit(a, 1, a - n, n); }
    if b < n { ModOfSplit(b, 0, b, n); } else { ModOfSplit(b, 1, b - n, n); }
  }

  /** `Math.round((c / (n - 1)) * 100)` without floating point: the integer
      nearest to 100c/(n-1), halves rounded up, i.e. the unique `r` with
      r - 1/2 <= 100c/(n-1) < r + 1/2. */
  function Progress(c: nat, n: nat): (r: nat)
    requires n >= 2
    ensures (n - 1) * (2 * r - 1) <= 200 * c < (n - 1) * (2 * r + 1)
  {
    (200 * c + (n - 1)) / (2 * (n - 1))
  }

  /** More loaded clips never show a smaller percentage. */
  lemma ProgressMonotone(c1: nat, c2: nat, n: nat)
    requires n >= 2 && c1 <= c2
    ensures Progress(c1, n) <= Progress(c2, n)
  {
    var k, r1, r2 := 2 * (n - 1), Progress(c1, n), Progress(c2, n);
    if r1 > r2 {
      MulMonotone(k, r2 + 1, r1);
      assert false;
    }
  }

  /** The percentage reaches exactly 100 when the count reaches `n - 1`, lies
      below it before and above it after (nothing clamps it). This holds for
      every `n` up to 200; beyond that rounding reaches 100 one load early. */
  lemma ProgressThreshold(c: nat, n: nat)
    requires 2 <= n <= 200
    ensures Progress(c, n) == 100 <==> c == n - 1
    ensures c < n - 1 ==> Progress(c, n) < 100
    ensures c > n - 1 ==> Progress(c, n) > 100
  {
    if c < n - 1 {
      ProgressBelowThreshold(c, n);
    } else if c > n - 1 {
      ProgressAboveThreshold(c, n);
    } else {
      ProgressAtThreshold(n);
    }
  }

  /** With `n - 1` loads the percentage is exactly 100, for every `n`. */
  lemma ProgressAtThreshold(n: nat)
    requires n >= 2
    ensures Progress(n - 1, n) == 100
  {
    ModOfSplit(200 * (n - 1) + (n - 1), 100, n - 1, 2 * (n - 1));
  }

  /** `n - 1` loads show 100% for every `n`; for up to 200 clips no other
      count does. */
  lemma ProgressFullAtThreshold(c: nat, n: nat)
    requires n >= 2
    ensures c == n - 1 ==> Progress(c, n) == 100
    ensures n <= 200 && Progress(c, n) == 100 ==> c == n - 1
  {
    ProgressAtThreshold(n);
    if n <= 200 {
      ProgressThreshold(c, n);
    }
  }

  lemma ProgressBelowThreshold(c: nat, n: nat)
    requires 2 <= n <= 200 && c < n - 1
    ensures Progress(c, n) < 100
  {
    var r := Progress(c, n);
    if r >= 100 {
      MulMonotone(2 * (n - 1), 100, r);
      assert false;
    }
  }

  lemma ProgressAboveThreshold(c: nat, n: nat)
    requires 2 <= n <= 200 && c > n - 1
    ensures Progress(c, n) > 100
  {
    var r := Progress(c, n);
    if r <= 100 {
      MulMonotone(2 * (n - 1), r + 1, 101);
      assert false;
    }
  }

  /** The percentages the component shows with four clips, including the
      unclamped value after a fourth load event. */
  lemma ProgressForFourClips()
    ensures Progress(0, 4) == 0 && Progress(1, 4) == 33 && Progress(2, 4) == 67
    ensures Progress(3, 4) == 100 && Progress(4, 4) == 133
  {
  }
}
