/** The speaker carousel (src/components/SpeakerCarousel/SpeakerCarousel.tsx):
    its index/pause state machine, the mystery-slot test, the image lookup
    and what is rendered. Timers are events: the autoplay interval firing and
    the post-interaction pause running out. */
module SpeakerCarousel {
  import opened Optional
  import A11y
  import EventConfig

  /** `currentIndex` and `isPaused`. */
  datatype Carousel = Carousel(index: int, paused: bool)

  /** The state on mount: the first slide, autoplay not paused. */
  const Initial: Carousel := Carousel(0, false)

  /** Everything that changes the state. */
  datatype Event =
    | Previous                 // the previous button, `goToPrevious`
    | Next                     // the next button, `goToNext`
    | GoToSlide(slide: int)    // a dot, `goToSlide`
    | KeyDown(key: A11y.Key)   // `handleKeyDown`
    | AutoplayTick             // the autoplay interval firing
    | PauseElapsed             // the post-interaction timeout firing
    | MouseEnter | MouseLeave | Focus | Blur

  /** JavaScript's `%`, which truncates toward zero. */
  function JsRemainder(a: int, n: int): int
    requires n > 0
  {
    if a >= 0 then a % n else -((-a) % n)
  }

  /** The index after `goToNext` (and after an autoplay step). */
  function NextIndex(i: int, n: int): int
    requires n >= 1
  {
    JsRemainder(i + 1, n)
  }

  /** The index after `goToPrevious`. */
  function PreviousIndex(i: int, n: int): int
    requires n >= 1
  {
    if i == 0 then n - 1 else i - 1
  }

  /** The autoplay interval is installed exactly while this holds. */
  predicate AutoplayRunning(c: Carousel, n: int)
  {
    !c.paused && n > 1
  }

  /** The state after an event, for `n` sessions. With no sessions the
      component renders nothing and binds no handler, so `n >= 1`. */
  function Step(c: Carousel, e: Event, n: int): Carousel
    requires n >= 1
  {
    match e
    case Previous => Carousel(PreviousIndex(c.index, n), true)
    case Next => Carousel(NextIndex(c.index, n), true)
    case GoToSlide(k) => Carousel(k, true)
    case KeyDown(key) =>
      (match key
       case ArrowLeft => Carousel(PreviousIndex(c.index, n), true)
       case ArrowRight => Carousel(NextIndex(c.index, n), true)
       case Home => c.(index := 0)
       case End => c.(index := n - 1)
       case OtherKey(_) => c)
    case AutoplayTick => if AutoplayRunning(c, n) then c.(index := NextIndex(c.index, n)) else c
    case PauseElapsed => c.(paused := false)
    case MouseEnter => c.(paused := true)
    case MouseLeave => c.(paused := false)
    case Focus => c.(paused := true)
    case Blur => c.(paused := false)
  }

  /** The state after a sequence of events. */
  function Run(c: Carousel, es: seq<Event>, n: int): Carousel
    requires n >= 1
    decreases |es|
  {
    if |es| == 0 then c else Run(Step(c, es[0], n), es[1..], n)
  }

  predicate InRange(c: Carousel, n: int)
  {
    0 <= c.index < n
  }

  /** The events the rendered component can produce: dots exist only for
      valid indices. */
  predicate Reachable(e: Event, n: int)
  {
    e.GoToSlide? ==> 0 <= e.slide < n
  }

  /** Within range, next and previous are the successor and predecessor
      modulo `n`, and each undoes the other. */
  lemma NextPreviousInverse(i: int, n: int)
    requires n >= 1 && 0 <= i < n
    ensures 0 <= NextIndex(i, n) < n && 0 <= PreviousIndex(i, n) < n
    ensures NextIndex(i, n) == (i + 1) % n
    ensures PreviousIndex(i, n) == (i - 1 + n) % n
    ensures PreviousIndex(NextIndex(i, n), n) == i
    ensures NextIndex(PreviousIndex(i, n), n) == i
  {
    A11y.KeyNavigationInRange(A11y.ArrowRight, i, n);
    A11y.KeyNavigationInRange(A11y.ArrowLeft, i, n);
    if i < n - 1 { A11y.ModSmall(i + 1, n); } else { A11y.ModWrap(i + 1, n); }
    if i == 0 { A11y.ModWrap(n, n); } else { A11y.ModSmall(i, n); }
  }

  /** Every event the component can produce keeps the index in range. */
  lemma StepInRange(c: Carousel, e: Event, n: int)
    requires n >= 1 && InRange(c, n) && Reachable(e, n)
    ensures InRange(Step(c, e, n), n)
  {
  }

  /** From any in-range state, any run of producible events keeps the
      index in range, so `sessions[currentIndex]` always exists. */
  lemma {:induction false} RunInRange(c: Carousel, es: seq<Event>, n: int)
    requires n >= 1 && InRange(c, n)
    requires forall i :: 0 <= i < |es| ==> Reachable(es[i], n)
    ensures InRange(Run(c, es, n), n)
    decreases |es|
  {
    if |es| > 0 {
      StepInRange(c, es[0], n);
      RunInRange(Step(c, es[0], n), es[1..], n);
    }
  }

  /** From the mounted state, with at least one session, no run of producible
      events ever leaves the list. */
  lemma InitialRunInRange(es: seq<Event>, n: int)
    requires n >= 1
    requires forall i :: 0 <= i < |es| ==> Reachable(es[i], n)
    ensures InRange(Run(Initial, es, n), n)
    ensures !Initial.paused && Initial.index == 0
  {
    RunInRange(Initial, es, n);
  }

  /** Button, dot and arrow-key interactions pause autoplay; Home and End
      move without touching the pause flag; the pause timeout, mouse leave
      and blur resume it. */
  lemma InteractionPauses(c: Carousel, n: int, k: int)
    requires n >= 1
    ensures Step(c, Previous, n).paused && Step(c, Next, n).paused && Step(c, GoToSlide(k), n).paused
    ensures Step(c, KeyDown(A11y.ArrowLeft), n).paused && Step(c, KeyDown(A11y.ArrowRight), n).paused
    ensures Step(c, KeyDown(A11y.Home), n).paused == c.paused
    ensures Step(c, KeyDown(A11y.End), n).paused == c.paused
    ensures !Step(c, PauseElapsed, n).paused && !Step(c, MouseLeave, n).paused && !Step(c, Blur, n).paused
  {
  }

  /** An autoplay tick advances exactly like the next button when autoplay
      runs, and changes nothing when paused or with a single session. */
  lemma AutoplayAdvances(c: Carousel, n: int)
    requires n >= 1
    ensures AutoplayRunning(c, n) ==> Step(c, AutoplayTick, n).index == Step(c, Next, n).index
    ensures !AutoplayRunning(c, n) ==> Step(c, AutoplayTick, n) == c
    ensures n == 1 ==> Step(c, AutoplayTick, n) == c
  {
  }

  /** The carousel's own key handling moves the index exactly as the shared
      `handleCarouselKeyNavigation` helper would, for every key it handles. */
  lemma KeyHandlingAgrees(c: Carousel, key: A11y.Key, n: int)
    requires n >= 1 && InRange(c, n)
    ensures A11y.ArrowStep(key, c.index, n) == Step(c, KeyDown(key), n).index
  {
    NextPreviousInverse(c.index, n);
    A11y.KeyNavigationInRange(key, c.index, n);
  }

  // ---------------------------------------------------------------------
  // Mystery slots
  // ---------------------------------------------------------------------

  /** The characters `String.prototype.trim` removes: WhiteSpace and
      LineTerminator of ECMA-262 (section 12.2 and 12.3), the former being
      TAB, VT, FF, SP, NBSP, ZWNBSP and every Space_Separator. */
  predicate IsJsWhitespace(c: char)
  {
    || c == '\U{0009}' || c == '\U{000B}' || c == '\U{000C}' || c == ' '
    || c == '\U{00A0}' || c == '\U{FEFF}' || c == '\U{1680}'
    || ('\U{2000}' <= c <= '\U{200A}') || c == '\U{202F}' || c == '\U{205F}' || c == '\U{3000}'
    || c == '\n' || c == '\r' || c == '\U{2028}' || c == '\U{2029}'
  }

  function TrimStart(s: string): (r: string)
    ensures |r| <= |s|
    ensures r == s[|s| - |r|..]
    ensures r != "" ==> !IsJsWhitespace(r[0])
    ensures forall i :: 0 <= i < |s| - |r| ==> IsJsWhitespace(s[i])
  {
    if |s| > 0 && IsJsWhitespace(s[0]) then TrimStart(s[1..]) else s
  }

  function TrimEnd(s: string): (r: string)
    ensures |r| <= |s|
    ensures r == s[..|r|]
    ensures r != "" ==> !IsJsWhitespace(r[|r| - 1])
    ensures forall i :: |r| <= i < |s| ==> IsJsWhitespace(s[i])
  {
    if |s| > 0 && IsJsWhitespace(s[|s| - 1]) then TrimEnd(s[..|s| - 1]) else s
  }

  function Trim(s: string): string
  {
    TrimEnd(TrimStart(s))
  }

  /** `!currentSession.pregador || currentSession.pregador.trim() === ''`. */
  predicate IsMystery(pregador: Option<string>)
  {
    !Truthy(pregador) || Trim(pregador.value) == ""
  }

  /** A slot is a mystery exactly when its speaker is absent or consists of
      whitespace only. */
  lemma MysteryIffBlank(pregador: Option<string>)
    ensures IsMystery(pregador) <==>
      (pregador.None? || forall i :: 0 <= i < |pregador.value| ==> IsJsWhitespace(pregador.value[i]))
  {
    if pregador.Some? {
      var s := pregador.value;
      var t := TrimStart(s);
      if t != "" {
        assert !IsJsWhitespace(s[|s| - |t|]);
        assert !IsJsWhitespace(t[0]);
        assert TrimEnd(t) != "";
      }
    }
  }

  // ---------------------------------------------------------------------
  // Images
  // ---------------------------------------------------------------------

  /** The three bundled images. */
  datatype Asset = Placeholder1 | JoaoHeuldes | Placeholder2

  /** The names `Object.prototype` carries, which a lookup on an object
      literal finds when the key is not an own property. */
  const ObjectPrototypeNames: set<string> := {
    "constructor", "hasOwnProperty", "isPrototypeOf", "propertyIsEnumerable",
    "toLocaleString", "toString", "valueOf", "__proto__",
    "__defineGetter__", "__defineSetter__", "__lookupGetter__", "__lookupSetter__"
  }

  /** The own entries of `ASSETS_MAP`. */
  function OwnAsset(filename: string): Option<Asset>
  {
    if filename == "pregador_1_placeholder.png" then Some(Placeholder1)
    else if filename == "joao_heuldes.png" then Some(JoaoHeuldes)
    else if filename == "pregador_2_placeholder.png" then Some(Placeholder2)
    else None
  }

  /** What `<img src>` receives: a bundled image or, through the prototype
      chain, an inherited member (a function or `Object.prototype`). */
  datatype ImageSrc = AssetSrc(asset: Asset) | InheritedMember(name: string)

  /** `getImageSrc` as written: `ASSETS_MAP[filename] || placeholderImg`. An
      inherited member is truthy, so it is returned instead of the
      placeholder. */
  function GetImageSrcAsWritten(filename: Option<string>): ImageSrc
  {
    if !Truthy(filename) then AssetSrc(Placeholder1)
    else match OwnAsset(filename.value)
      case Some(a) => AssetSrc(a)
      case None =>
        if filename.value in ObjectPrototypeNames then InheritedMember(filename.value)
        else AssetSrc(Placeholder1)
  }

  /** A file name that is also an `Object.prototype` member yields no image
      at all. */
  lemma PrototypeNameEscapes()
    ensures GetImageSrcAsWritten(Some("toString")) == InheritedMember("toString")
    ensures GetImageSrcAsWritten(Some("__proto__")).InheritedMember?
  {
  }

  /** `getImageSrc` as intended: the mapped image for a known file name,
      the first placeholder for anything else. */
  function GetImageSrc(filename: Option<string>): (a: Asset)
    ensures Truthy(filename) && OwnAsset(filename.value).Some? ==> a == OwnAsset(filename.value).value
    ensures !Truthy(filename) || OwnAsset(filename.value).None? ==> a == Placeholder1
  {
    if Truthy(filename) && OwnAsset(filename.value).Some? then OwnAsset(filename.value).value
    else Placeholder1
  }

  /** The corrected lookup agrees with the written one on every name that is
      not an `Object.prototype` member, and always yields an image. */
  lemma GetImageSrcAgrees(filename: Option<string>)
    ensures !(filename.Some? && filename.value in ObjectPrototypeNames) ==>
      GetImageSrcAsWritten(filename) == AssetSrc(GetImageSrc(filename))
    ensures filename.Some? && filename.value in ObjectPrototypeNames ==>
      GetImageSrcAsWritten(filename).InheritedMember? && GetImageSrc(filename) == Placeholder1
  {
    if filename.Some? && filename.value in ObjectPrototypeNames {
      assert OwnAsset(filename.value).None?;
    }
  }

  // ---------------------------------------------------------------------
  // Rendering
  // ---------------------------------------------------------------------

  /** What the component shows: the current slide's image and either the
      speaker's name or the mystery card, plus the controls and one dot per
      session when there is more than one session. */
  datatype View = View(image: Asset, mystery: bool, name: string,
                       controls: bool, dots: nat, activeDot: int)

  function Render(sessions: seq<EventConfig.Session>, c: Carousel): (v: Option<View>)
    requires |sessions| == 0 || InRange(c, |sessions|)
  {
    if |sessions| == 0 then None
    else
      var cur := sessions[c.index];
      var mystery := IsMystery(cur.pregador);
      Some(View(GetImageSrc(cur.imagem), mystery, if mystery then "" else cur.pregador.value,
                |sessions| > 1, if |sessions| > 1 then |sessions| else 0, c.index))
  }

  /** Nothing is rendered for an empty list. Otherwise the shown slide is the
      current session's: its image through the corrected lookup, which is
      what `getImageSrc` returns for every file name that is not an
      `Object.prototype` member; the mystery card exactly for a mystery slot
      and the speaker's name otherwise; the controls and one dot per session
      exactly when there are several sessions, the current one active. */
  lemma RenderFacts(sessions: seq<EventConfig.Session>, c: Carousel)
    requires |sessions| == 0 || InRange(c, |sessions|)
    ensures Render(sessions, c).None? <==> |sessions| == 0
    ensures Render(sessions, c).Some? ==>
      var v := Render(sessions, c).value;
      var cur := sessions[c.index];
      && v.image == GetImageSrc(cur.imagem)
      && (!(cur.imagem.Some? && cur.imagem.value in ObjectPrototypeNames) ==>
            GetImageSrcAsWritten(cur.imagem) == AssetSrc(v.image))
      && (v.mystery <==> IsMystery(cur.pregador))
      && (v.mystery ==> v.name == "")
      && (!v.mystery ==> v.name == cur.pregador.value && Trim(v.name) != "")
      && (v.controls <==> |sessions| > 1)
      && v.dots == (if |sessions| > 1 then |sessions| else 0)
      && v.activeDot == c.index
  {
    if |sessions| > 0 {
      GetImageSrcAgrees(sessions[c.index].imagem);
    }
  }

  /** The configured carousel: slide one is João Heuldes with his photo,
      slides two and three are mystery slots with the two placeholders. */
  lemma ConfiguredSlides()
    ensures !IsMystery(EventConfig.Sessions[0].pregador)
    ensures IsMystery(EventConfig.Sessions[1].pregador) && IsMystery(EventConfig.Sessions[2].pregador)
    ensures GetImageSrc(EventConfig.Sessions[0].imagem) == JoaoHeuldes
    ensures GetImageSrc(EventConfig.Sessions[1].imagem) == Placeholder1
    ensures GetImageSrc(EventConfig.Sessions[2].imagem) == Placeholder2
  {
    var name := EventConfig.Sessions[0].pregador.value;
    assert !IsJsWhitespace(name[0]);
    MysteryIffBlank(EventConfig.Sessions[0].pregador);
  }
}
