/** The schedule section (src/components/Schedule/Schedule.tsx): the day
    filter, the day dividers, the day name and date maps, the rounded
    duration, the speaker label and the session-type tag. */
module Schedule {
  import opened Optional
  import opened EventConfig
  import DateTime
  import SpeakerCarousel

  /** `DayFilter`: 'todos' | 'sexta' | 'sabado' | 'domingo'. */
  datatype DayFilter = Todos | OnlyDay(day: Day)

  function FilterId(f: DayFilter): string
  {
    match f
    case Todos => "todos"
    case OnlyDay(d) => DayId(d)
  }

  /** `activeDay === 'todos' || sessao.dia === activeDay`. */
  predicate Matches(f: DayFilter, s: Session)
  {
    f == Todos || s.dia == Some(f.day)
  }

  /** `datasESessoes.filter(...)`: keeps exactly the matching sessions. */
  function FilterSessions(sessions: seq<Session>, f: DayFilter): (r: seq<Session>)
    ensures |r| <= |sessions|
    ensures forall i :: 0 <= i < |r| ==> Matches(f, r[i])
    ensures forall s :: s in r <==> s in sessions && Matches(f, s)
  {
    if |sessions| == 0 then []
    else (if Matches(f, sessions[0]) then [sessions[0]] else []) + FilterSessions(sessions[1..], f)
  }

  /** Filtering distributes over concatenation, so it keeps the relative
      order of the sessions it keeps. */
  lemma {:induction false} FilterConcat(a: seq<Session>, b: seq<Session>, f: DayFilter)
    ensures FilterSessions(a + b, f) == FilterSessions(a, f) + FilterSessions(b, f)
    decreases |a|
  {
    if |a| > 0 {
      assert (a + b)[1..] == a[1..] + b;
      FilterConcat(a[1..], b, f);
    } else {
      assert a + b == b;
    }
  }

  /** The 'todos' tab shows every session, in configuration order. */
  lemma {:induction false} FilterTodos(sessions: seq<Session>)
    ensures FilterSessions(sessions, Todos) == sessions
    decreases |sessions|
  {
    if |sessions| > 0 {
      FilterTodos(sessions[1..]);
    }
  }

  /** A session with a day tag appears under its own day's tab and under no
      other day's; an untagged session appears under no day tab. */
  lemma DayPartition(sessions: seq<Session>, s: Session)
    requires s in sessions
    ensures s.dia.Some? ==> s in FilterSessions(sessions, OnlyDay(s.dia.value))
    ensures forall d :: s in FilterSessions(sessions, OnlyDay(d)) <==> s.dia == Some(d)
  {
  }

  // ---------------------------------------------------------------------
  // Day dividers
  // ---------------------------------------------------------------------

  /** `index === 0 || filteredSessions[index - 1].dia !== sessao.dia`. */
  predicate IsFirstOfDay(list: seq<Session>, i: int)
    requires 0 <= i < |list|
  {
    i == 0 || list[i - 1].dia != list[i].dia
  }

  /** `isFirstOfDay && sessao.dia`: a divider is drawn before item `i`. */
  predicate ShowsDivider(list: seq<Session>, i: int)
    requires 0 <= i < |list|
  {
    IsFirstOfDay(list, i) && list[i].dia.Some?
  }

  /** Under a single-day tab exactly the first item carries a divider. */
  lemma SingleDayDivider(sessions: seq<Session>, d: Day, i: int)
    requires 0 <= i < |FilterSessions(sessions, OnlyDay(d))|
    ensures ShowsDivider(FilterSessions(sessions, OnlyDay(d)), i) <==> i == 0
  {
    var r := FilterSessions(sessions, OnlyDay(d));
    assert Matches(OnlyDay(d), r[i]);
    if i > 0 {
      assert Matches(OnlyDay(d), r[i - 1]);
    }
  }

  /** Every tagged item is preceded (or itself marked) by a divider of its own
      day, with no other day's item in between. */
  lemma {:induction false} DividerBefore(list: seq<Session>, k: int)
    requires 0 <= k < |list| && list[k].dia.Some?
    ensures exists i :: (0 <= i <= k && ShowsDivider(list, i) && list[i].dia == list[k].dia
                         && (forall j :: i <= j <= k ==> list[j].dia == list[k].dia))
    decreases k
  {
    if IsFirstOfDay(list, k) {
      assert ShowsDivider(list, k);
    } else {
      DividerBefore(list, k - 1);
      var i :| 0 <= i <= k - 1 && ShowsDivider(list, i) && list[i].dia == list[k - 1].dia
        && (forall j :: i <= j <= k - 1 ==> list[j].dia == list[k - 1].dia);
      assert forall j :: i <= j <= k ==> list[j].dia == list[k].dia;
    }
  }

  /** The sessions of each day form one contiguous run. */
  predicate Grouped(list: seq<Session>)
  {
    forall i, j, k :: 0 <= i < j < k < |list| && list[i].dia == list[k].dia ==> list[j].dia == list[i].dia
  }

  /** When each day's sessions are contiguous, no day gets two dividers. */
  lemma GroupedDividerOnce(list: seq<Session>, i: int, j: int)
    requires Grouped(list) && 0 <= i < j < |list|
    requires ShowsDivider(list, i) && ShowsDivider(list, j)
    ensures list[i].dia != list[j].dia
  {
  }

  // ---------------------------------------------------------------------
  // Labels
  // ---------------------------------------------------------------------

  /** `getDayName`. */
  function DayName(dia: string): string
  {
    if dia == "sexta" then "Sexta"
    else if dia == "sabado" then "S\U{00E1}bado"
    else if dia == "domingo" then "Domingo"
    else dia
  }

  /** `getDayDate`. */
  function DayDate(dia: string): string
  {
    if dia == "sexta" then "14/11"
    else if dia == "sabado" then "15/11"
    else if dia == "domingo" then "16/11"
    else ""
  }

  /** One tab of `dayFilters`. */
  datatype FilterTab = FilterTab(id: DayFilter, title: string, date: string)

  function TabIds(tabs: seq<FilterTab>): seq<DayFilter>
  {
    seq(|tabs|, i requires 0 <= i < |tabs| => tabs[i].id)
  }

  const DayFilters: seq<FilterTab> := [
    FilterTab(Todos, "Todos", ""),
    FilterTab(OnlyDay(Sexta), "Sexta", "14/11"),
    FilterTab(OnlyDay(Sabado), "S\U{00E1}bado", "15/11"),
    FilterTab(OnlyDay(Domingo), "Domingo", "16/11")
  ]

  /** The tabs list every filter once, in order 'todos', 'sexta', 'sabado',
      'domingo'; each day tab's label and date are the ones the divider
      shows for that day, and only the 'todos' tab has no date. Strings that
      are no day map to themselves and to no date. */
  lemma DayTablesAgree(dia: string)
    ensures forall f: DayFilter :: f in TabIds(DayFilters)
    ensures forall i, j :: 0 <= i < j < |DayFilters| ==> FilterId(DayFilters[i].id) != FilterId(DayFilters[j].id)
    ensures forall i :: 0 <= i < |DayFilters| && DayFilters[i].id.OnlyDay? ==>
      DayName(FilterId(DayFilters[i].id)) == DayFilters[i].title
      && DayDate(FilterId(DayFilters[i].id)) == DayFilters[i].date != ""
    ensures DayFilters[0].id == Todos && DayFilters[0].date == ""
    ensures (forall d :: dia != DayId(d)) ==> DayName(dia) == dia && DayDate(dia) == ""
  {
    assert TabIds(DayFilters) == [Todos, OnlyDay(Sexta), OnlyDay(Sabado), OnlyDay(Domingo)];
    forall f: DayFilter ensures f in TabIds(DayFilters) {
      match f
      case Todos =>
      case OnlyDay(Sexta) =>
      case OnlyDay(Sabado) =>
      case OnlyDay(Domingo) =>
    }
    if forall d :: dia != DayId(d) {
      assert dia != DayId(Sexta) && dia != DayId(Sabado) && dia != DayId(Domingo);
    }
  }

  /** `Math.round(ms / (1000 * 60))`: minutes rounded to nearest, halves
      upward. */
  function DurationMinutes(ms: int): (r: int)
    ensures 60000 * r - 30000 <= ms < 60000 * r + 30000
  {
    (ms + 30000) / 60000
  }

  /** JavaScript's `Math.round` on an exact quotient: the floor of x + 1/2. */
  function JsRound(x: real): int
  {
    (x + 0.5).Floor
  }

  /** The integer form agrees with rounding the real quotient. */
  lemma DurationMinutesRounds(ms: int)
    ensures DurationMinutes(ms) == JsRound(ms as real / 60000.0)
  {
    var r := DurationMinutes(ms);
    var x := ms as real / 60000.0 + 0.5;
    assert x == (ms + 30000) as real / 60000.0;
    assert r as real <= x < (r + 1) as real;
  }

  /** `sessao.pregador || 'Slot Misterioso'`. */
  function SpeakerLabel(pregador: Option<string>): (shown: string)
    ensures shown != ""
    ensures Truthy(pregador) ==> shown == pregador.value
    ensures !Truthy(pregador) ==> shown == "Slot Misterioso"
  {
    if Truthy(pregador) then pregador.value else "Slot Misterioso"
  }

  /** The schedule shows the speaker's name whenever the carousel does, and
      the fallback label only for slots the carousel also treats as a
      mystery; a whitespace-only name is shown as-is here but counts as a
      mystery in the carousel. */
  lemma SpeakerLabelVsCarousel(pregador: Option<string>)
    ensures !SpeakerCarousel.IsMystery(pregador) ==> SpeakerLabel(pregador) == pregador.value
    ensures SpeakerLabel(pregador) == "Slot Misterioso" && pregador != Some("Slot Misterioso") ==>
      SpeakerCarousel.IsMystery(pregador)
    ensures SpeakerLabel(Some(" ")) == " " && SpeakerCarousel.IsMystery(Some(" "))
  {
    BlankNameShown(" ");
  }

  /** Every non-empty whitespace-only name is shown verbatim by the schedule
      while the carousel hides it behind the mystery card. */
  lemma BlankNameShown(p: string)
    requires p != ""
    requires forall i :: 0 <= i < |p| ==> SpeakerCarousel.IsJsWhitespace(p[i])
    ensures SpeakerLabel(Some(p)) == p
    ensures SpeakerCarousel.IsMystery(Some(p))
  {
    SpeakerCarousel.MysteryIffBlank(Some(p));
  }

  /** The type tag's three values. */
  datatype SessionType = Abertura | Encerramento | Ministracao

  /** The tag chosen from the session's day. */
  function TypeTag(dia: Option<Day>): SessionType
  {
    if dia == Some(Sexta) then Abertura
    else if dia == Some(Domingo) then Encerramento
    else Ministracao
  }

  /** The tag text with its emoji. */
  function TypeTagText(t: SessionType): string
  {
    match t
    case Abertura => "\U{1F389} Abertura"
    case Encerramento => "\U{1F64F} Encerramento"
    case Ministracao => "\U{26A1} Ministra\U{00E7}\U{00E3}o"
  }

  /** The three tag texts are distinct, so the shown text names the type. */
  lemma TypeTagTextDistinct(a: SessionType, b: SessionType)
    ensures TypeTagText(a) == TypeTagText(b) <==> a == b
  {
    if a != b {
      assert TypeTagText(a)[0] != TypeTagText(b)[0];
    }
  }

  /** Friday opens, Sunday closes, and everything else, including Saturday
      and untagged sessions, is a ministration. */
  lemma TypeTagDays(dia: Option<Day>)
    ensures TypeTag(dia) == Abertura <==> dia == Some(Sexta)
    ensures TypeTag(dia) == Encerramento <==> dia == Some(Domingo)
    ensures TypeTag(dia) == Ministracao <==> dia.None? || dia == Some(Sabado)
  {
    if dia.Some? {
      match dia.value
      case Sexta =>
      case Sabado =>
      case Domingo =>
    }
  }

  // ---------------------------------------------------------------------
  // The rendered timeline
  // ---------------------------------------------------------------------

  /** One timeline item: the optional divider text, the duration in minutes
      (None where a date did not parse and the page shows `NaN`),
      the speaker label, the optional description and the type tag. */
  datatype Item = Item(divider: Option<string>, minutes: Option<int>, speaker: string,
                       description: Option<string>, tag: string)

  /** The timeline shows an empty notice or one item per filtered session. */
  datatype Timeline = EmptyNotice | Items(items: seq<Item>)

  function DividerText(d: Day): string
  {
    DayName(DayId(d)) + " \U{2022} " + DayDate(DayId(d))
  }

  function RenderItem(list: seq<Session>, i: int): Item
    requires 0 <= i < |list|
  {
    var s := list[i];
    Item(if ShowsDivider(list, i) then Some(DividerText(s.dia.value)) else None,
         if DateTime.ValidTime(s.inicio) && DateTime.ValidTime(s.fim)
         then Some(DurationMinutes(DateTime.EpochMillis(s.fim) - DateTime.EpochMillis(s.inicio)))
         else None,
         SpeakerLabel(s.pregador),
         if Truthy(s.descricaoCurta) then s.descricaoCurta else None,
         TypeTagText(TypeTag(s.dia)))
  }

  function RenderTimeline(sessions: seq<Session>, f: DayFilter): (t: Timeline)
  {
    var list := FilterSessions(sessions, f);
    if |list| == 0 then EmptyNotice
    else Items(seq(|list|, i requires 0 <= i < |list| => RenderItem(list, i)))
  }

  /** The empty notice appears exactly when no session matches the tab;
      otherwise there is one item per matching session, in order, with a
      divider naming the day exactly where a new day starts, the duration
      between the session's instants rounded to minutes, the speaker label,
      the short description when it is truthy, and the tag text. */
  lemma RenderTimelineFacts(sessions: seq<Session>, f: DayFilter)
    ensures RenderTimeline(sessions, f).EmptyNotice? <==>
      forall s :: s in sessions ==> !Matches(f, s)
    ensures RenderTimeline(sessions, f).Items? ==>
      var list := FilterSessions(sessions, f);
      var items := RenderTimeline(sessions, f).items;
      && |items| == |list|
      && forall i :: 0 <= i < |items| ==> ItemShows(items[i], list, i)
  {
    var list := FilterSessions(sessions, f);
    if |list| != 0 {
      assert list[0] in sessions;
      var items := RenderTimeline(sessions, f).items;
      forall i | 0 <= i < |items|
        ensures ItemShows(items[i], list, i)
      {
        RenderItemFacts(list, i);
      }
    }
  }

  /** What the item at position `i` of a filtered list shows. */
  predicate ItemShows(item: Item, list: seq<Session>, i: int)
    requires 0 <= i < |list|
  {
    && (item.divider.Some? <==> ShowsDivider(list, i))
    && item.speaker == SpeakerLabel(list[i].pregador)
    && item.tag == TypeTagText(TypeTag(list[i].dia))
    && (item.divider.Some? ==> item.divider.value == DividerText(list[i].dia.value))
    && (DateTime.ValidTime(list[i].inicio) && DateTime.ValidTime(list[i].fim) ==>
          item.minutes ==
            Some(DurationMinutes(DateTime.EpochMillis(list[i].fim) - DateTime.EpochMillis(list[i].inicio))))
    && (!(DateTime.ValidTime(list[i].inicio) && DateTime.ValidTime(list[i].fim)) ==> item.minutes.None?)
    && (item.description.Some? <==> Truthy(list[i].descricaoCurta))
    && (item.description.Some? ==> item.description == list[i].descricaoCurta)
  }

  lemma RenderItemFacts(list: seq<Session>, i: int)
    requires 0 <= i < |list|
    ensures ItemShows(RenderItem(list, i), list, i)
  {
  }

  /** The items the configured sessions render under the 'todos' tab. */
  const ConfiguredItems: seq<Item> := [
    Item(None, Some(60), "Jo\U{00E3}o Heuldes", None, "\U{26A1} Ministra\U{00E7}\U{00E3}o"),
    Item(None, Some(60), "Slot Misterioso", None, "\U{26A1} Ministra\U{00E7}\U{00E3}o"),
    Item(None, Some(60), "Slot Misterioso", None, "\U{26A1} Ministra\U{00E7}\U{00E3}o")]

  lemma ConfiguredItem(i: int)
    requires 0 <= i < 3
    ensures RenderItem(Sessions, i) == ConfiguredItems[i]
  {
    ConfiguredSessions();
    var s := Sessions[i];
    assert s in Sessions;
    assert DurationMinutes(3600000) == 60;
  }

  /** The configured schedule: each day tab is empty, the 'todos' tab lists
      the three one-hour sessions with no divider, João Heuldes first and
      two mystery slots after him, all tagged as ministrations. */
  lemma ConfiguredSchedule()
    ensures forall d :: RenderTimeline(Sessions, OnlyDay(d)) == EmptyNotice
    ensures RenderTimeline(Sessions, Todos) == Items(ConfiguredItems)
  {
    ConfiguredSessions();
    FilterTodos(Sessions);
    forall d ensures RenderTimeline(Sessions, OnlyDay(d)) == EmptyNotice {
      RenderTimelineFacts(Sessions, OnlyDay(d));
    }
    ConfiguredItem(0);
    ConfiguredItem(1);
    ConfiguredItem(2);
  }
}
