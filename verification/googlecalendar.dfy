/** The "add to Google Calendar" deep link built by
    `generateGoogleCalendarLink` (src/utils/datetime.ts). */
module GoogleCalendar {
  import opened Optional
  import opened DateTime
  import opened FormUrlEncoding
  import Text

  const Base: string := "https://calendar.google.com/calendar/render?"

  /** The query parameters, in insertion order: `description || ''` and
      `location || ''` for the two optional values. */
  function LinkParams(title: string, start: UtcTime, end: UtcTime,
                      description: Option<string>, location: Option<string>): seq<(string, string)>
  {
    [ ("action", "TEMPLATE"),
      ("text", title),
      ("dates", IcsStamp(start) + "/" + IcsStamp(end)),
      ("details", OrEmpty(description)),
      ("location", OrEmpty(location)) ]
  }

  /** `name=value` with both halves serialized. */
  function EncodePair(p: (string, string)): string
  {
    Encode(p.0) + "=" + Encode(p.1)
  }

  function EncodePairs(ps: seq<(string, string)>): (r: seq<string>)
    ensures |r| == |ps|
    ensures forall i :: 0 <= i < |ps| ==> r[i] == EncodePair(ps[i])
  {
    if |ps| == 0 then [] else [EncodePair(ps[0])] + EncodePairs(ps[1..])
  }

  /** `new URLSearchParams(params).toString()`: the serialized pairs joined
      by `&`. */
  function Serialize(ps: seq<(string, string)>): string
  {
    Text.Join(EncodePairs(ps), "&")
  }

  /** `generateGoogleCalendarLink(title, start, end, description, location)`. */
  function GoogleCalendarLink(title: string, start: UtcTime, end: UtcTime,
                              description: Option<string>, location: Option<string>): string
  {
    Base + Serialize(LinkParams(title, start, end, description, location))
  }

  // ---------------------------------------------------------------------
  // Reading a link back
  // ---------------------------------------------------------------------

  /** One `name=value` piece, both halves decoded. */
  function ParsePair(piece: string): Option<(string, string)>
  {
    var halves := Text.Split(piece, "=");
    if |halves| != 2 then None
    else
      var name := Decode(halves[0]);
      var value := Decode(halves[1]);
      if name.None? || value.None? then None else Some((name.value, value.value))
  }

  function ParsePairs(pieces: seq<string>): Option<seq<(string, string)>>
  {
    if |pieces| == 0 then Some([])
    else
      var p := ParsePair(pieces[0]);
      var rest := ParsePairs(pieces[1..]);
      if p.None? || rest.None? then None else Some([p.value] + rest.value)
  }

  /** The parameters of a non-empty query string, in order. */
  function ParseQuery(q: string): Option<seq<(string, string)>>
  {
    ParsePairs(Text.Split(q, "&"))
  }

  /** The parameters of a link to the calendar's render page. */
  function ParseLink(url: string): Option<seq<(string, string)>>
  {
    if Text.StartsWith(url, Base) then ParseQuery(url[|Base|..]) else None
  }

  // ---------------------------------------------------------------------
  // Properties
  // ---------------------------------------------------------------------

  lemma PairRoundTrip(p: (string, string))
    ensures '&' !in EncodePair(p)
    ensures ParsePair(EncodePair(p)) == Some(p)
  {
    EncodeAvoidsDelimiters(p.0);
    EncodeAvoidsDelimiters(p.1);
    Text.SplitAfterFree(Encode(p.0), "=", Encode(p.1));
    Text.SplitFree(Encode(p.1), "=");
    DecodeEncode(p.0);
    DecodeEncode(p.1);
  }

  lemma {:induction false} PairsRoundTrip(ps: seq<(string, string)>)
    ensures ParsePairs(EncodePairs(ps)) == Some(ps)
    decreases |ps|
  {
    if |ps| > 0 {
      PairRoundTrip(ps[0]);
      assert EncodePairs(ps)[1..] == EncodePairs(ps[1..]);
      PairsRoundTrip(ps[1..]);
      assert [ps[0]] + ps[1..] == ps;
    }
  }

  /** Parsing undoes serialization for a non-empty parameter list: names,
      values and their order all come back. */
  lemma QueryRoundTrip(ps: seq<(string, string)>)
    requires |ps| >= 1
    ensures ParseQuery(Serialize(ps)) == Some(ps)
  {
    var pieces := EncodePairs(ps);
    forall i | 0 <= i < |pieces| ensures '&' !in pieces[i] {
      PairRoundTrip(ps[i]);
    }
    Text.SplitJoin(pieces, "&");
    PairsRoundTrip(ps);
  }

  /** The link starts with the render page and reads back as the five
      parameters action=TEMPLATE, text, dates, details and location, in that
      order; `dates` is the start stamp, a slash and the end stamp, each in
      the compact UTC form; an absent description or location reads back as
      the empty string. */
  lemma GoogleLinkRoundTrip(title: string, start: UtcTime, end: UtcTime,
                            description: Option<string>, location: Option<string>)
    requires ValidTime(start) && ValidTime(end)
    ensures Text.StartsWith(GoogleCalendarLink(title, start, end, description, location), Base)
    ensures ParseLink(GoogleCalendarLink(title, start, end, description, location))
      == Some([ ("action", "TEMPLATE"),
                ("text", title),
                ("dates", CompactStamp(start) + "/" + CompactStamp(end)),
                ("details", if Truthy(description) then description.value else ""),
                ("location", if Truthy(location) then location.value else "") ])
  {
    var url := GoogleCalendarLink(title, start, end, description, location);
    var ps := LinkParams(title, start, end, description, location);
    assert url[..|Base|] == Base;
    assert url[|Base|..] == Serialize(ps);
    QueryRoundTrip(ps);
    IcsStampIsCompact(start);
    IcsStampIsCompact(end);
  }
}
