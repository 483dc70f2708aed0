/** The gallery lightbox: which image, if any, is shown full-screen, and how
    clicks and the keyboard move between images. */
module GalleryLightboxComponent {
  import opened Wrappers

  datatype Image = Image(src: string, alt: string)

  /** The quotient of division truncated toward zero. */
  function JsQuot(a: int, b: int): int
    requires b != 0
  {
    if a >= 0 then a / b else -((-a) / b)
  }

  /** JavaScript `a % b`: the remainder of truncating division, which takes
      the sign of the dividend. */
  function JsRem(a: int, b: int): (r: int)
    requires b != 0
    ensures a == JsQuot(a, b) * b + r
    ensures a >= 0 ==> 0 <= r < Abs(b)
    ensures a < 0 ==> -Abs(b) < r <= 0
  {
    if a >= 0 then a % b
    else
      assert -a == ((-a) / b) * b + (-a) % b;
      -((-a) % b)
  }

  function Abs(x: int): int {
    if x < 0 then -x else x
  }


  /** The shown position lies inside a gallery of `n` images, if anything is
      shown at all. */
  predicate InBounds(index: Option<int>, n: int) {
    index.Some? ==> 0 <= index.value < n
  }

  /** `(i + 1) % images.length` (line 23). */
  function Next(i: int, n: int): int
    requires n != 0
  {
    JsRem(i + 1, n)
  }

  /** `(i - 1 + images.length) % images.length` (line 28). */
  function Prev(i: int, n: int): int
    requires n != 0
  {
    JsRem(i - 1 + n, n)
  }

  /** The updater passed to `setIndex` by `nextImage`. */
  function NextIndex(index: Option<int>, n: int): Option<int>
    requires index.Some? ==> n != 0
  {
    match index
    case None => None
    case Some(i) => Some(Next(i, n))
  }

  /** The updater passed to `setIndex` by `prevImage`. */
  function PrevIndex(index: Option<int>, n: int): Option<int>
    requires index.Some? ==> n != 0
  {
    match index
    case None => None
    case Some(i) => Some(Prev(i, n))
  }

  /** The effect of `handleKeyDown` (lines 33-47) on the index. */
  function KeyDown(index: Option<int>, n: int, key: string): Option<int>
    requires index.Some? ==> n != 0
  {
    if index.None? then index
    else if key == "Escape" then None
    else if key == "ArrowRight" then NextIndex(index, n)
    else if key == "ArrowLeft" then PrevIndex(index, n)
    else index
  }

  /** Within `[0, n)`, stepping forward stays within `[0, n)`, wrapping from
      the last image to the first. */
  lemma NextInBounds(i: int, n: int)
    requires 0 <= i < n
    ensures 0 <= Next(i, n) < n
    ensures Next(i, n) == if i == n - 1 then 0 else i + 1
  {
    if i == n - 1 {
      DivModUnique(i + 1, n, 1, 0);
    } else {
      DivModUnique(i + 1, n, 0, i + 1);
    }
  }

  /** Within `[0, n)`, stepping back stays within `[0, n)`, wrapping from the
      first image to the last. */
  lemma PrevInBounds(i: int, n: int)
    requires 0 <= i < n
    ensures 0 <= Prev(i, n) < n
    ensures Prev(i, n) == if i == 0 then n - 1 else i - 1
  {
    if i == 0 {
      DivModUnique(i - 1 + n, n, 0, n - 1);
    } else {
      DivModUnique(i - 1 + n, n, 1, i - 1);
    }
  }

  lemma DivModIdentity(a: int, n: int)
    requires n > 0
    ensures a == (a / n) * n + a % n && 0 <= a % n < n
  {
  }

  /** Euclidean division has one quotient and one remainder. */
  lemma DivModUnique(a: int, n: int, q: int, r: int)
    requires n > 0 && 0 <= r < n && a == q * n + r
    ensures a / n == q && a % n == r
  {
    var d := a / n - q;
    assert d * n == r - a % n;
    MulBounds(d, n);
  }

  lemma MulBounds(d: int, n: int)
    requires n >= 0
    ensures d >= 1 ==> d * n >= n
    ensures d <= -1 ==> d * n <= -n
  {
    if d >= 1 {
      MulAtLeast(d, n);
    } else if d <= -1 {
      MulAtLeast(-d, n);
    }
  }

  lemma {:induction false} MulAtLeast(d: int, n: int)
    requires d >= 1 && n >= 0
    ensures d * n >= n
  {
    if d > 1 {
      MulAtLeast(d - 1, n);
      assert d * n == (d - 1) * n + n;
    }
  }

  /** Back undoes forward. */
  lemma PrevAfterNext(i: int, n: int)
    requires 0 <= i < n
    ensures Prev(Next(i, n), n) == i
  {
    NextInBounds(i, n);
    PrevInBounds(Next(i, n), n);
  }

  /** Forward undoes back. */
  lemma NextAfterPrev(i: int, n: int)
    requires 0 <= i < n
    ensures Next(Prev(i, n), n) == i
  {
    PrevInBounds(i, n);
    NextInBounds(Prev(i, n), n);
  }

  /** `k` steps forward from `i`. */
  function NextTimes(i: int, n: int, k: nat): int
    requires n != 0
  {
    if k == 0 then i else Next(NextTimes(i, n, k - 1), n)
  }

  /** `k` steps forward land on `(i + k) mod n`; in particular `n` steps
      return to the start. */
  lemma {:induction false} NextTimesWraps(i: int, n: int, k: nat)
    requires 0 <= i < n
    ensures NextTimes(i, n, k) == (i + k) % n
  {
    if k == 0 {
      DivModUnique(i, n, 0, i);
    } else {
      NextTimesWraps(i, n, k - 1);
      var j := NextTimes(i, n, k - 1);
      NextInBounds(j, n);
      var a := i + k - 1;
      var q := a / n;
      DivModIdentity(a, n);
      if j == n - 1 {
        assert a + 1 == (q + 1) * n + 0;
        DivModUnique(a + 1, n, q + 1, 0);
      } else {
        DivModUnique(a + 1, n, q, j + 1);
      }
    }
  }

  /** A full round of `n` steps forward comes back to the same image. */
  lemma FullRound(i: int, n: int)
    requires 0 <= i < n
    ensures NextTimes(i, n, n) == i
  {
    NextTimesWraps(i, n, n);
    DivModUnique(i + n, n, 1, i);
  }

  /** No key moves the index out of the gallery, and a closed lightbox
      ignores every key. */
  lemma KeyDownInBounds(index: Option<int>, n: int, key: string)
    requires InBounds(index, n) && (index.Some? ==> n != 0)
    ensures InBounds(KeyDown(index, n, key), n)
    ensures index.None? ==> KeyDown(index, n, key) == None
  {
    if index.Some? {
      NextInBounds(index.value, n);
      PrevInBounds(index.value, n);
    }
  }

  /** The state of one mounted `GalleryLightbox`. */
  class GalleryLightbox {
    const images: seq<Image>
    var index: Option<int>

    /** Whatever is shown is one of the images. */
    predicate Valid()
      reads this
    {
      InBounds(index, |images|)
    }

    /** Mounting: nothing is shown (line 16). */
    constructor (images: seq<Image>)
      ensures Valid()
      ensures this.images == images && index == None
    {
      this.images := images;
      index := None;
    }

    /** `openLightbox(i)` (line 18); the grid only offers the positions of
        its images (lines 57-62). */
    method OpenLightbox(i: int)
      requires 0 <= i < |images|
      modifies this
      ensures Valid() && index == Some(i)
    {
      index := Some(i);
    }

    /** `closeLightbox` (line 19). */
    method CloseLightbox()
      modifies this
      ensures Valid() && index == None
    {
      index := None;
    }

    /** `nextImage` (lines 21-24). */
    method NextImage()
      requires Valid()
      modifies this
      ensures Valid() && index == NextIndex(old(index), |images|)
    {
      if index.Some? {
        NextInBounds(index.value, |images|);
        index := Some(JsRem(index.value + 1, |images|));
      }
    }

    /** `prevImage` (lines 26-29). */
    method PrevImage()
      requires Valid()
      modifies this
      ensures Valid() && index == PrevIndex(old(index), |images|)
    {
      if index.Some? {
        PrevInBounds(index.value, |images|);
        index := Some(JsRem(index.value - 1 + |images|, |images|));
      }
    }

    /** `handleKeyDown` (lines 33-47). */
    method HandleKeyDown(key: string)
      requires Valid()
      modifies this
      ensures Valid() && index == KeyDown(old(index), |images|, key)
    {
      if index.None? {
        return;
      }
      if key == "Escape" {
        CloseLightbox();
      } else if key == "ArrowRight" {
        NextImage();
      } else if key == "ArrowLeft" {
        PrevImage();
      }
    }

    /** `images[index]`, the image the open lightbox shows (lines 125-126, 142). */
    function Shown(): (image: Image)
      reads this
      requires Valid() && index.Some?
      ensures image in images
    {
      images[index.value]
    }
  }
}
