/** The view logic of the first invitation template (`template-1`): the hero
    image and title, the gallery and hero slide lists, the bride and groom
    slides, the wish list, the initials badge of a wish, the event location
    link, and the carousels' index arithmetic. Everything here reads the loaded
    aggregate; nothing writes. */
module TemplateOne {
  import opened Wrappers
  import opened Php
  import opened Decimal
  import opened Schema
  import opened InvitationModel
  import opened AssetUrl
  import opened TemplateRenderer

  /** The background the page falls back to when it has no picture of its own. */
  const DEFAULT_BG: string := "https://api.our-wedding.link/uploads/8cde97a0-cc1d-11ee-8a12-1d71291003ab.jpg"

  /** `$x ?: $default` on a nullable string. */
  function OrElse(x: Option<string>, default: string): (r: string)
    ensures x.Some? && TruthyString(x.value) ==> r == x.value
    ensures !(x.Some? && TruthyString(x.value)) ==> r == default
  {
    if x.Some? && TruthyString(x.value) then x.value else default
  }

  // Hero

  /** `$invitation->couple?->coupleImage?->publicUrl()`. */
  function CoupleImageUrl(agg: Loaded, diskUrl: (string, string) -> string): Option<string> {
    if agg.couple.Some? then AssetUrlOf(agg.assets, agg.couple.value.imageAssetId, diskUrl) else None
  }

  /** The URL of a gallery item's image, if the asset has one. */
  function GalleryUrl(agg: Loaded, k: nat, diskUrl: (string, string) -> string): Option<string>
    requires k < |agg.gallery|
  {
    AssetUrlOf(agg.assets, Some(agg.gallery[k].imageAssetId), diskUrl)
  }

  /** The hero image: the couple image, else the first gallery item's image,
      else the default background. `??` falls through on null only, so an
      empty URL is kept. */
  function HeroImage(agg: Loaded, diskUrl: (string, string) -> string): (r: string)
    ensures CoupleImageUrl(agg, diskUrl).Some? ==> r == CoupleImageUrl(agg, diskUrl).value
    ensures CoupleImageUrl(agg, diskUrl).None? && |agg.gallery| > 0 && GalleryUrl(agg, 0, diskUrl).Some? ==>
              r == GalleryUrl(agg, 0, diskUrl).value
    ensures CoupleImageUrl(agg, diskUrl).None? && (|agg.gallery| == 0 || GalleryUrl(agg, 0, diskUrl).None?) ==>
              r == DEFAULT_BG
  {
    match CoupleImageUrl(agg, diskUrl)
    case Some(u) => u
    case None =>
      if |agg.gallery| > 0 && GalleryUrl(agg, 0, diskUrl).Some? then GalleryUrl(agg, 0, diskUrl).value
      else DEFAULT_BG
  }

  /** `$invitation->couple?->couple_name_N ?? ''`. */
  function CoupleName(agg: Loaded, second: bool): string {
    if agg.couple.None? then ""
    else if second then agg.couple.value.name2.GetOr("")
    else agg.couple.value.name1.GetOr("")
  }

  /** The hero title: the invitation's title, else "name1 & name2" trimmed. */
  function HeroTitle(agg: Loaded): (r: string)
    ensures agg.invitation.title.Some? ==> r == agg.invitation.title.value
    ensures agg.invitation.title.None? ==> r == Trim(CoupleName(agg, false) + " & " + CoupleName(agg, true))
  {
    match agg.invitation.title
    case Some(t) => t
    case None => Trim(CoupleName(agg, false) + " & " + CoupleName(agg, true))
  }

  /** Without a title of its own, the hero title is never blank: the joining
      "&" survives the trim whatever the names are. */
  lemma HeroTitleWithoutTitleNotBlank(agg: Loaded)
    requires agg.invitation.title.None?
    ensures HeroTitle(agg) != "" && TruthyString(HeroTitle(agg))
  {
    var a := CoupleName(agg, false);
    var s := a + " & " + CoupleName(agg, true);
    assert s[|a| + 1] == '&' && !IsTrimChar('&');
    var t := Trim(s);
    assert t != "";
    if t == "0" {
      assert !IsTrimChar(s[|a| + 1]);
      TrimKeepsInnerChars(s, |a| + 1);
      assert false;
    }
  }

  /** The trimmed string holds every character that is not a trim character. */
  lemma TrimKeepsInnerChars(s: string, i: nat)
    requires i < |s| && !IsTrimChar(s[i])
    ensures s[i] in Trim(s)
  {
    var l := TrimLeft(s);
    var cut := |s| - |l|;
    assert i >= cut;
    assert l[i - cut] == s[i];
    var r := TrimRight(l);
    assert i - cut < |r|;
    assert r[i - cut] == s[i];
  }

  // Slides

  datatype Slide = Slide(imgSrc: string, imgAlt: string)

  datatype HeroSlide = HeroSlide(imgSrc: string, imgAlt: string, title: string, description: Option<string>)

  /** A gallery item's caption: the asset's alt text, else "<title> photo",
      else "Gallery <position>". */
  function GalleryAlt(agg: Loaded, k: nat): string
    requires k < |agg.gallery|
  {
    var id := agg.gallery[k].imageAssetId;
    if id in agg.assets && agg.assets[id].altText.Some? then agg.assets[id].altText.value
    else if agg.invitation.title.Some? && TruthyString(agg.invitation.title.value) then agg.invitation.title.value + " photo"
    else "Gallery " + NatToString(k + 1)
  }

  /** Whether a gallery item has a usable (truthy) image URL. */
  predicate ShowsImage(agg: Loaded, k: nat, diskUrl: (string, string) -> string)
    requires k < |agg.gallery|
  {
    GalleryUrl(agg, k, diskUrl).Some? && TruthyString(GalleryUrl(agg, k, diskUrl).value)
  }

  function SlideAt(agg: Loaded, k: nat, diskUrl: (string, string) -> string): Slide
    requires k < |agg.gallery| && ShowsImage(agg, k, diskUrl)
  {
    Slide(GalleryUrl(agg, k, diskUrl).value, GalleryAlt(agg, k))
  }

  /** The gallery items from `k` on, mapped to slides, dropping those without
      a usable URL, in order. */
  function ItemSlides(agg: Loaded, k: nat, diskUrl: (string, string) -> string): (r: seq<Slide>)
    requires k <= |agg.gallery|
    ensures |r| <= |agg.gallery| - k
    ensures forall j :: 0 <= j < |r| ==> TruthyString(r[j].imgSrc)
    ensures forall j :: 0 <= j < |r| ==> exists m :: k <= m < |agg.gallery| && ShowsImage(agg, m, diskUrl) && r[j] == SlideAt(agg, m, diskUrl)
    ensures |r| == 0 <==> forall m :: k <= m < |agg.gallery| ==> !ShowsImage(agg, m, diskUrl)
    ensures (forall m :: k <= m < |agg.gallery| ==> ShowsImage(agg, m, diskUrl)) ==>
              |r| == |agg.gallery| - k && forall j :: 0 <= j < |r| ==> r[j] == SlideAt(agg, k + j, diskUrl)
    decreases |agg.gallery| - k
  {
    if k == |agg.gallery| then []
    else
      var rest := ItemSlides(agg, k + 1, diskUrl);
      if ShowsImage(agg, k, diskUrl) then [SlideAt(agg, k, diskUrl)] + rest else rest
  }

  /** `$gallerySlides`: the item slides, or when there are none and the hero
      image is truthy, a single slide of the hero image. */
  function GallerySlides(agg: Loaded, diskUrl: (string, string) -> string): (r: seq<Slide>)
    ensures |ItemSlides(agg, 0, diskUrl)| > 0 ==> r == ItemSlides(agg, 0, diskUrl)
    ensures |ItemSlides(agg, 0, diskUrl)| == 0 && TruthyString(HeroImage(agg, diskUrl)) ==>
              r == [Slide(HeroImage(agg, diskUrl), OrElse(Some(HeroTitle(agg)), "Gallery"))]
    ensures forall j :: 0 <= j < |r| ==> TruthyString(r[j].imgSrc)
    ensures |r| == 0 <==> |ItemSlides(agg, 0, diskUrl)| == 0 && !TruthyString(HeroImage(agg, diskUrl))
  {
    var items := ItemSlides(agg, 0, diskUrl);
    var hero := HeroImage(agg, diskUrl);
    if |items| == 0 && TruthyString(hero) then [Slide(hero, OrElse(Some(HeroTitle(agg)), "Gallery"))]
    else items
  }

  /** The hero slide for one gallery slide: the same picture, with the hero
      title and the couple's date as caption. */
  function HeroSlideOf(s: Slide, title: string, description: Option<string>): HeroSlide {
    HeroSlide(s.imgSrc, s.imgAlt, title, description)
  }

  function HeroDescription(agg: Loaded): Option<string> {
    if agg.couple.Some? then agg.couple.value.dateDisplay else None
  }

  function HeroSlidesFrom(slides: seq<Slide>, title: string, description: Option<string>): (r: seq<HeroSlide>)
    ensures |r| == |slides|
    ensures forall j :: 0 <= j < |r| ==> r[j] == HeroSlideOf(slides[j], title, description)
  {
    if |slides| == 0 then [] else [HeroSlideOf(slides[0], title, description)] + HeroSlidesFrom(slides[1..], title, description)
  }

  /** `$heroSlides` as written, second fallback included. */
  function HeroSlides(agg: Loaded, diskUrl: (string, string) -> string): (r: seq<HeroSlide>)
  {
    var mapped := HeroSlidesFrom(GallerySlides(agg, diskUrl), HeroTitle(agg), HeroDescription(agg));
    var hero := HeroImage(agg, diskUrl);
    if |mapped| == 0 && TruthyString(hero) then
      var n1 := if agg.couple.Some? then agg.couple.value.name1.GetOr("Couple") else "Couple";
      [HeroSlide(hero, n1 + " & " + CoupleName(agg, true), HeroTitle(agg), HeroDescription(agg))]
    else mapped
  }

  /** The hero slides are the gallery slides, one for one and in order, each
      with the hero title and date added: the second fallback never fires,
      because the gallery slides are empty only when the hero image is falsy. */
  lemma HeroSlidesFollowGallery(agg: Loaded, diskUrl: (string, string) -> string)
    ensures var g := GallerySlides(agg, diskUrl);
            var h := HeroSlides(agg, diskUrl);
            && |h| == |g|
            && forall j :: 0 <= j < |h| ==>
                 h[j].imgSrc == g[j].imgSrc && h[j].imgAlt == g[j].imgAlt
                 && h[j].title == HeroTitle(agg) && h[j].description == HeroDescription(agg)
  {
  }

  /** The gallery slides are never empty while some item has a usable image,
      and when every item has one they are exactly the items' slides. */
  lemma GallerySlidesOfFullGallery(agg: Loaded, diskUrl: (string, string) -> string)
    requires forall m :: 0 <= m < |agg.gallery| ==> ShowsImage(agg, m, diskUrl)
    requires |agg.gallery| > 0
    ensures var g := GallerySlides(agg, diskUrl);
            |g| == |agg.gallery| && forall j :: 0 <= j < |g| ==> g[j] == SlideAt(agg, j, diskUrl)
  {
  }

  /** `$brideSlides` / `$groomSlides`: one slide of the person's photo when it
      has a truthy URL, captioned with the name or the role's word. */
  function PersonSlides(agg: Loaded, p: Option<Person>, fallback: string, diskUrl: (string, string) -> string): (r: seq<Slide>)
    ensures |r| <= 1
    ensures |r| == 1 <==> p.Some? && AssetUrlOf(agg.assets, p.value.photoAssetId, diskUrl).Some?
                          && TruthyString(AssetUrlOf(agg.assets, p.value.photoAssetId, diskUrl).value)
    ensures |r| == 1 ==> r[0].imgSrc == AssetUrlOf(agg.assets, p.value.photoAssetId, diskUrl).value
                         && r[0].imgAlt == p.value.name.GetOr(fallback)
  {
    if p.Some? then
      var u := AssetUrlOf(agg.assets, p.value.photoAssetId, diskUrl);
      if u.Some? && TruthyString(u.value) then [Slide(u.value, p.value.name.GetOr(fallback))] else []
    else []
  }

  // Wishes

  /** A row the wish list shows: a curated sample, or a guest's message. */
  datatype Wish = Sample(sample: WishSample) | Entry(entry: GuestbookEntry)

  /** `$wishItems`: the wish samples when there are any, else the guestbook. */
  function WishItems(agg: Loaded): (r: seq<Wish>)
    ensures |agg.wishSamples| > 0 ==> |r| == |agg.wishSamples| && forall j :: 0 <= j < |r| ==> r[j] == Sample(agg.wishSamples[j])
    ensures |agg.wishSamples| == 0 ==> |r| == |agg.guestbook| && forall j :: 0 <= j < |r| ==> r[j] == Entry(agg.guestbook[j])
  {
    if |agg.wishSamples| > 0 then seq(|agg.wishSamples|, j requires 0 <= j < |agg.wishSamples| => Sample(agg.wishSamples[j]))
    else seq(|agg.guestbook|, j requires 0 <= j < |agg.guestbook| => Entry(agg.guestbook[j]))
  }

  /** `$wish->name ?? $wish->guest_name ?? 'Guest'`: a sample has no
      `guest_name`, a guestbook entry no `name`. */
  function WishName(w: Wish): (r: string)
    ensures w.Entry? ==> r == w.entry.guestName
    ensures w.Sample? ==> r == w.sample.name.GetOr("Guest")
  {
    match w
    case Sample(s) => s.name.GetOr("Guest")
    case Entry(e) => e.guestName
  }

  /** `explode(' ', $s)`: the pieces between single spaces, empty ones included. */
  function Explode(s: string): (r: seq<string>)
    ensures |r| >= 1
    ensures forall j :: 0 <= j < |r| ==> ' ' !in r[j]
    decreases |s|
  {
    if |s| == 0 then [""]
    else
      var rest := Explode(s[1..]);
      if s[0] == ' ' then [""] + rest else [[s[0]] + rest[0]] + rest[1..]
  }

  /** `implode(' ', $parts)`. */
  function Implode(parts: seq<string>): string
    requires |parts| >= 1
    decreases |parts|
  {
    if |parts| == 1 then parts[0] else parts[0] + " " + Implode(parts[1..])
  }

  /** Exploding on spaces and joining again gives back the name. */
  lemma {:induction false} ImplodeExplode(s: string)
    ensures Implode(Explode(s)) == s
    decreases |s|
  {
    if |s| > 0 {
      var rest := Explode(s[1..]);
      ImplodeExplode(s[1..]);
      if s[0] == ' ' {
        assert Explode(s)[1..] == rest;
      } else {
        var e := Explode(s);
        assert e == [[s[0]] + rest[0]] + rest[1..];
        if |rest| == 1 {
          assert Implode(e) == [s[0]] + rest[0];
        } else {
          assert e[1..] == rest[1..];
          assert Implode(e) == [s[0]] + rest[0] + " " + Implode(rest[1..]);
        }
      }
    }
  }

  /** `->filter()`: only truthy words, "" and "0" dropped. */
  function TruthyWords(parts: seq<string>): (r: seq<string>)
    ensures |r| <= |parts|
    ensures forall j :: 0 <= j < |r| ==> TruthyString(r[j]) && r[j] in parts
    ensures forall j :: 0 <= j < |parts| && TruthyString(parts[j]) ==> parts[j] in r
  {
    if |parts| == 0 then []
    else
      var rest := TruthyWords(parts[1..]);
      assert forall j :: 1 <= j < |parts| ==> parts[j] == parts[1..][j - 1];
      if TruthyString(parts[0]) then [parts[0]] + rest else rest
  }

  /** `->take(2)->map(first letter, upper-cased)->implode('')`. `upper` stands
      for `mb_strtoupper`, which the model does not interpret. */
  function Letters(words: seq<string>, upper: string -> string): (r: string)
    requires forall j :: 0 <= j < |words| ==> |words[j]| > 0
  {
    if |words| == 0 then ""
    else if |words| == 1 then upper(words[0][..1])
    else upper(words[0][..1]) + upper(words[1][..1])
  }

  /** The badge on a wish: the first letters of the first two words of the
      name, upper-cased, or "GG" when that comes out falsy. */
  function Initials(name: string, upper: string -> string): (r: string)
    ensures TruthyString(r)
    ensures TruthyWords(Explode(name)) == [] ==> r == "GG"
  {
    var words := TruthyWords(Explode(name));
    var l := Letters(words, upper);
    if TruthyString(l) then l else "GG"
  }

  /** Two truthy words at the front stay at the front after filtering. */
  lemma TruthyWordsKeepFront(a: string, b: string, rest: seq<string>)
    requires TruthyString(a) && TruthyString(b)
    ensures TruthyWords([a, b] + rest) == [a, b] + TruthyWords(rest)
  {
    assert [a, b] + rest == [a] + ([b] + rest);
    TruthyWordKeptFirst(b, rest);
    TruthyWordKeptFirst(a, [b] + rest);
  }

  lemma TruthyWordKeptFirst(a: string, rest: seq<string>)
    requires TruthyString(a)
    ensures TruthyWords([a] + rest) == [a] + TruthyWords(rest)
  {
    assert ([a] + rest)[1..] == rest;
  }

  /** The words of "a b", for space-free truthy `a` and `b`. */
  lemma WordsOfTwo(a: string, b: string)
    requires TruthyString(a) && TruthyString(b) && ' ' !in a && ' ' !in b
    ensures TruthyWords(Explode(a + " " + b)) == [a, b]
  {
    ExplodeWord(a, b);
    ExplodeSingle(b);
    TruthyWordsKeepFront(a, b, []);
    assert [a, b] + [] == [a, b];
  }

  /** The words of "a b tail" start with `a` and `b`. */
  lemma WordsOfTwoAndTail(a: string, b: string, tail: string)
    requires TruthyString(a) && TruthyString(b) && ' ' !in a && ' ' !in b
    ensures TruthyWords(Explode(a + " " + b + " " + tail)) == [a, b] + TruthyWords(Explode(tail))
  {
    ExplodeWord(a, b + " " + tail);
    ExplodeWord(b, tail);
    assert a + " " + b + " " + tail == a + " " + (b + " " + tail);
    assert [a] + ([b] + Explode(tail)) == [a, b] + Explode(tail);
    TruthyWordsKeepFront(a, b, Explode(tail));
  }

  /** Two words separated by a space give their two initials. */
  lemma InitialsOfTwoWords(a: string, b: string, upper: string -> string)
    requires TruthyString(a) && TruthyString(b) && ' ' !in a && ' ' !in b
    requires TruthyString(upper(a[..1]) + upper(b[..1]))
    ensures Initials(a + " " + b, upper) == upper(a[..1]) + upper(b[..1])
  {
    WordsOfTwo(a, b);
  }

  /** Only the first two words count: whatever follows them does not change
      the initials. */
  lemma InitialsIgnoreLaterWords(a: string, b: string, tail: string, upper: string -> string)
    requires TruthyString(a) && TruthyString(b) && ' ' !in a && ' ' !in b
    ensures Initials(a + " " + b + " " + tail, upper) == Initials(a + " " + b, upper)
  {
    WordsOfTwo(a, b);
    WordsOfTwoAndTail(a, b, tail);
  }

  /** A space-free word is a single piece. */
  lemma {:induction false} ExplodeSingle(a: string)
    requires ' ' !in a
    ensures Explode(a) == [a]
    decreases |a|
  {
    if |a| > 0 {
      assert ' ' !in a[1..];
      ExplodeSingle(a[1..]);
      assert [a[0]] + a[1..] == a;
    }
  }

  /** A space-free word, then a space: the word is the first piece. */
  lemma {:induction false} ExplodeWord(a: string, rest: string)
    requires ' ' !in a
    ensures Explode(a + " " + rest) == [a] + Explode(rest)
    decreases |a|
  {
    if |a| == 0 {
      assert a + " " + rest == [' '] + rest;
      assert (a + " " + rest)[1..] == rest;
    } else {
      assert (a + " " + rest)[1..] == a[1..] + " " + rest;
      ExplodeWord(a[1..], rest);
      assert [a[0]] + a[1..] == a;
    }
  }

  // Events

  /** An event's location link: its own URL if truthy, else the section's
      default URL (which may be null). */
  function EventLocationUrl(agg: Loaded, e: Event): (r: Option<string>)
    ensures Filled(e.locationUrl) ==> r == e.locationUrl
    ensures !Filled(e.locationUrl) && agg.eventSection.Some? ==> r == agg.eventSection.value.defaultLocationUrl
    ensures !Filled(e.locationUrl) && agg.eventSection.None? ==> r.None?
  {
    if Filled(e.locationUrl) then e.locationUrl
    else if agg.eventSection.Some? then agg.eventSection.value.defaultLocationUrl
    else None
  }

  // Carousels: indices run from 1 to the number of slides.

  /** `next()` of the hero carousel. */
  function Next(i: int, n: nat): (r: int)
    ensures 1 <= i <= n ==> 1 <= r <= n
    ensures 1 <= i < n ==> r == i + 1
    ensures i >= n ==> r == 1
  {
    if i < n then i + 1 else 1
  }

  /** `previous()` of the hero carousel. */
  function Previous(i: int, n: nat): (r: int)
    ensures 1 <= i <= n ==> 1 <= r <= n
    ensures 1 < i ==> r == i - 1
    ensures i <= 1 ==> r == n
  {
    if i > 1 then i - 1 else n
  }

  /** The bride, groom and gallery carousels: the same, but doing nothing
      when there are no slides. */
  function GuardedNext(i: int, n: nat): (r: int)
    ensures n == 0 ==> r == i
    ensures n > 0 ==> r == Next(i, n)
  {
    if n == 0 then i else Next(i, n)
  }

  function GuardedPrevious(i: int, n: nat): (r: int)
    ensures n == 0 ==> r == i
    ensures n > 0 ==> r == Previous(i, n)
  {
    if n == 0 then i else Previous(i, n)
  }

  /** `previous` undoes `next` and `next` undoes `previous`. */
  lemma NextPreviousInverse(i: int, n: nat)
    requires 1 <= i <= n
    ensures Previous(Next(i, n), n) == i
    ensures Next(Previous(i, n), n) == i
  {
  }

  /** `next` pressed `k` times. */
  function NextTimes(i: int, n: nat, k: nat): int
    decreases k
  {
    if k == 0 then i else Next(NextTimes(i, n, k - 1), n)
  }

  /** `x` reduced into `0..n-1` by taking away whole rounds of `n`. */
  function Wrap(x: nat, n: nat): (r: nat)
    requires n > 0
    ensures r < n
    decreases x
  {
    if x < n then x else Wrap(x - n, n)
  }

  /** One step further round the ring: one more, or zero at the wrap. */
  lemma {:induction false} WrapSucc(x: nat, n: nat)
    requires n > 0
    ensures Wrap(x + 1, n) == if Wrap(x, n) + 1 == n then 0 else Wrap(x, n) + 1
    decreases x
  {
    if x + 1 >= n && x >= n {
      WrapSucc(x - n, n);
    }
  }

  /** Pressing `next` moves the index `k` places round the ring of slides. */
  lemma {:induction false} NextTimesCycles(i: int, n: nat, k: nat)
    requires 1 <= i <= n
    ensures NextTimes(i, n, k) == Wrap(i - 1 + k, n) + 1
    decreases k
  {
    if k > 0 {
      NextTimesCycles(i, n, k - 1);
      WrapSucc(i - 1 + k - 1, n);
    }
  }

  /** After as many presses as there are slides the carousel is back where it
      started. */
  lemma NextFullCircle(i: int, n: nat)
    requires 1 <= i <= n
    ensures NextTimes(i, n, n) == i
  {
    NextTimesCycles(i, n, n);
  }
}
