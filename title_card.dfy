/** The title card: a poster image looked up by title on the content network,
    what happens when that image fails to load, and the row of rating stars. */
module TitleCard {
  import opened Wrappers
  import opened Text

  const CdnUrl: string := "https://cdn.spotparking.app/public/posters/"

  /** The poster's address: the title, as it is, under the content network's poster folder. */
  function PosterUrl(title: string): string {
    CdnUrl + title + ".jpg"
  }

  const FallbackUrl: string := CdnUrl + "fallbackImage.jpg"

  // ---------------------------------------------------------------------------
  // Rating stars

  /** The largest length `Array.from({ length })` accepts before throwing a RangeError. */
  const MaxArrayLength: int := 0x1_0000_0000 - 1

  /** `ToLength` of a parse result: `NaN` and negative values give an empty array. */
  function ArrayLength(n: Option<int>): nat {
    if n.Some? && n.value > 0 then n.value else 0
  }

  datatype Stars = Stars(full: nat, empty: nat)

  /** The stars under a card: nothing when `random_rating` is undefined or empty; otherwise
      `parseInt(random_rating)` filled stars and `5 - parseInt(random_rating)` empty ones, where a
      `NaN` or negative count draws none and a count too large for an array throws. */
  function StarCounts(rating: Option<string>): (r: Result<Option<Stars>>)
    ensures rating == None || rating == Some("") ==> r == Success(None)
    ensures r.Failure? <==>
      rating.Some? && rating.value != "" && ParseInt(rating.value).Some? &&
      (ParseInt(rating.value).value > MaxArrayLength || 5 - ParseInt(rating.value).value > MaxArrayLength)
    ensures r.Success? && r.value.Some? ==>
      (r.value.value.full + r.value.value.empty == 5 <==>
        ParseInt(rating.value).Some? && 0 <= ParseInt(rating.value).value <= 5)
    ensures r.Success? && r.value.Some? && ParseInt(rating.value).None? ==> r.value.value == Stars(0, 0)
    ensures r.Success? && r.value.Some? && ParseInt(rating.value).Some? ==>
      var v := ParseInt(rating.value).value;
      r.value.value.full == (if v > 0 then v else 0) && r.value.value.empty == (if 5 - v > 0 then 5 - v else 0)
  {
    if rating.None? || rating.value == "" then Success(None)
    else StarsOf(ParseInt(rating.value))
  }

  /** The two arrays of stars drawn for a parsed rating `numFull`. */
  function StarsOf(numFull: Option<int>): (r: Result<Option<Stars>>)
    ensures numFull.None? ==> r == Success(Some(Stars(0, 0)))
    ensures numFull.Some? ==>
      var v := numFull.value;
      (r.Failure? <==> v > MaxArrayLength || 5 - v > MaxArrayLength) &&
      (r.Success? ==> r.value == Some(Stars(if v > 0 then v else 0, if 5 - v > 0 then 5 - v else 0)))
  {
    var numEmpty := if numFull.Some? then Some(5 - numFull.value) else None;
    var full := ArrayLength(numFull);
    var empty := ArrayLength(numEmpty);
    if full > MaxArrayLength || empty > MaxArrayLength then Failure("RangeError: Invalid array length")
    else Success(Some(Stars(full, empty)))
  }

  /** A rating written as a digit from 0 to 5 draws that many filled stars and fills the row of
      five with empty ones. */
  lemma StarsForRating(k: nat)
    requires k <= 5
    ensures StarCounts(Some(Decimal(k))) == Success(Some(Stars(k, 5 - k)))
  {
    var rating := Decimal(k);
    assert ParseInt(rating) == Some(k) by {
      ParseIntDecimal(k);
    }
    assert StarCounts(Some(rating)) == StarsOf(Some(k));
    assert StarsOf(Some(k)) == Success(Some(Stars(k, 5 - k)));
  }

  // ---------------------------------------------------------------------------
  // The poster with a fallback image (frontend card)

  /** The image element's source and the number of image loads started so far: each assignment
      to `src` starts one. */
  datatype Poster = Poster(src: string, loads: nat)

  function InitialPoster(title: string): Poster {
    Poster(PosterUrl(title), 1)
  }

  /** The `onError` handler as written: it clears the element's DOM `onerror` property, which
      React never set, and assigns the fallback address, which starts another load. React's
      `onError` stays attached, so the handler runs again on every failed load. */
  function ErrorAsWritten(p: Poster): Poster {
    Poster(FallbackUrl, p.loads + 1)
  }

  function AfterErrors(p: Poster, k: nat): Poster {
    if k == 0 then p else ErrorAsWritten(AfterErrors(p, k - 1))
  }

  /** When the fallback image fails too, every failure starts another load: after `k` failed
      loads, `k + 1` loads have been started, without bound. */
  lemma {:induction false} FallbackReloadsAsWritten(title: string, k: nat)
    ensures AfterErrors(InitialPoster(title), k).loads == k + 1
    ensures k > 0 ==> AfterErrors(InitialPoster(title), k).src == FallbackUrl
  {
    if k > 0 {
      FallbackReloadsAsWritten(title, k - 1);
    }
  }

  /** The handler as evidently intended: the fallback is substituted once and a failure of the
      fallback itself is left alone. */
  function ErrorIntended(p: Poster): Poster {
    if p.src == FallbackUrl then p else Poster(FallbackUrl, p.loads + 1)
  }

  function AfterErrorsIntended(p: Poster, k: nat): Poster {
    if k == 0 then p else ErrorIntended(AfterErrorsIntended(p, k - 1))
  }

  /** With the intended handler at most two loads are ever started, whatever fails, and after
      the first failure the fallback is shown. */
  lemma {:induction false} FallbackOnceIntended(title: string, k: nat)
    ensures AfterErrorsIntended(InitialPoster(title), k).loads <= 2
    ensures k == 0 ==> AfterErrorsIntended(InitialPoster(title), k).src == PosterUrl(title)
    ensures k > 0 ==> AfterErrorsIntended(InitialPoster(title), k).src == FallbackUrl
    ensures AfterErrorsIntended(InitialPoster(title), k).src == FallbackUrl ==>
      AfterErrorsIntended(InitialPoster(title), k + 1) == AfterErrorsIntended(InitialPoster(title), k)
  {
    if k > 0 {
      FallbackOnceIntended(title, k - 1);
    }
  }

  /** The frontend card's image element. */
  class FallbackPoster {
    var src: string
    var loads: nat

    constructor (title: string)
      ensures Poster(src, loads) == InitialPoster(title)
    {
      src := PosterUrl(title);
      loads := 1;
    }

    /** The `onError` handler, run on every failed load. */
    method ImageError()
      modifies this
      ensures Poster(src, loads) == ErrorAsWritten(old(Poster(src, loads)))
      ensures src == FallbackUrl && loads == old(loads) + 1
    {
      src := FallbackUrl;
      loads := loads + 1;
    }
  }

  // ---------------------------------------------------------------------------
  // The poster that hides itself (second card)

  class HidingPoster {
    const title: string
    var showImage: bool

    constructor (title: string)
      ensures this.title == title && showImage
      ensures ImageSrc() == Some(PosterUrl(title))
    {
      this.title := title;
      showImage := true;
    }

    /** The source of the rendered image, or `None` when no image is rendered. */
    function ImageSrc(): (s: Option<string>)
      reads this
      ensures s.Some? <==> showImage
      ensures s.Some? ==> s.value == CdnUrl + title + ".jpg"
    {
      if showImage then Some(PosterUrl(title)) else None
    }

    /** The `onError` handler: the image is removed for good, since nothing sets the flag back. */
    method ImageError()
      modifies this`showImage
      ensures !showImage && ImageSrc() == None
    {
      showImage := false;
    }
  }
}
