/** The gallery lightbox of site.js: `lbIndex` and its wrap-around step `lbNav`. */
module SiteGallery {

  /** JavaScript's `%` on integers: the remainder of truncating division,
      which takes the sign of the dividend. */
  function JsRem(a: int, n: int): (r: int)
    requires n > 0
    ensures a >= 0 ==> 0 <= r < n
    ensures a < 0 ==> -n < r <= 0
    ensures a == JsQuot(a, n) * n + r
  {
    if a >= 0 then a % n else -((-a) % n)
  }

  /** The quotient of truncating division, rounded towards zero. */
  function JsQuot(a: int, n: int): int
    requires n > 0
  {
    if a >= 0 then a / n else -((-a) / n)
  }

  /** `(lbIndex + dir + galleryImgs.length) % galleryImgs.length`: one step
      forwards or backwards through `n` images, wrapping at both ends. */
  function NavIndex(i: int, dir: int, n: int): (j: int)
    requires 0 <= i < n && (dir == -1 || dir == 1)
    ensures 0 <= j < n
    ensures j == (i + dir) % n
  {
    ShiftedRem(i + dir, n);
    JsRem(i + dir + n, n)
  }

  /** Adding the length once before taking the remainder does not change the
      result, and makes the dividend non-negative. */
  lemma ShiftedRem(x: int, n: int)
    requires n > 0 && -1 <= x <= n
    ensures JsRem(x + n, n) == x % n
  {
    if x < 0 {
      ModBelow(x, n);
      ModInRange(x + n, n);
    } else if x < n {
      ModInRange(x, n);
      ModAbove(x + n, n);
    } else {
      ModAbove(x, n);
      ModAbove2(x + n, n);
    }
  }

  lemma ModInRange(x: int, n: int)
    requires 0 <= x < n
    ensures x % n == x
  {
  }

  lemma ModAbove(x: int, n: int)
    requires n <= x < 2 * n
    ensures x % n == x - n
  {
  }

  lemma ModAbove2(x: int, n: int)
    requires 2 * n <= x < 3 * n
    ensures x % n == x - 2 * n
  {
  }

  lemma ModBelow(x: int, n: int)
    requires -n <= x < 0
    ensures x % n == x + n
  {
  }

  /** The step moves to the neighbouring image, and past the last image (or
      before the first) it wraps to the other end. */
  lemma NavWraps(i: int, n: int)
    requires 0 <= i < n
    ensures NavIndex(i, 1, n) == (if i == n - 1 then 0 else i + 1)
    ensures NavIndex(i, -1, n) == (if i == 0 then n - 1 else i - 1)
  {
    if i == n - 1 { assert (i + 1) % n == 0 by { assert i + 1 == 1 * n; } }
    else { assert (i + 1) % n == i + 1; }
    if i == 0 { assert (i - 1) % n == n - 1 by { assert i - 1 == -1 * n + (n - 1); } }
    else { assert (i - 1) % n == i - 1; }
  }

  /** "Next" then "previous", or the other way round, returns to the same image. */
  lemma NavInverse(i: int, n: int)
    requires 0 <= i < n
    ensures NavIndex(NavIndex(i, 1, n), -1, n) == i
    ensures NavIndex(NavIndex(i, -1, n), 1, n) == i
  {
    NavWraps(i, n);
    NavWraps(NavIndex(i, 1, n), n);
    NavWraps(NavIndex(i, -1, n), n);
  }

  /** The lightbox state: the number of gallery images and `lbIndex`. */
  class Lightbox {
    const count: nat
    var index: int

    constructor (count: nat)
      ensures this.count == count && index == 0
    {
      this.count := count;
      index := 0;
    }

    /** `openLightbox(idx)`, called with the position of a clicked image. */
    method Open(idx: int)
      requires 0 <= idx < count
      modifies this
      ensures index == idx
    {
      index := idx;
    }

    /** `lbNav(dir)`, bound to the previous (-1) and next (1) controls. */
    method Nav(dir: int)
      requires 0 <= index < count && (dir == -1 || dir == 1)
      modifies this
      ensures 0 <= index < count
      ensures index == NavIndex(old(index), dir, count)
      ensures index == (old(index) + dir) % count
    {
      index := JsRem(index + dir + count, count);
    }
  }
}
