/** The iCalendar payload built by `generateICS` (src/utils/datetime.ts):
    content lines of section 3.1 of RFC 5545 joined by CRLF, one VEVENT
    inside one VCALENDAR, optional lines dropped rather than left blank. */
module Ics {
  import opened Optional
  import opened Decimal
  import opened DateTime
  import Text

  const Crlf: string := "\r\n"
  const Header: seq<string> := ["BEGIN:VCALENDAR", "VERSION:2.0", "PRODID:-//Salto//No Hype Event//PT", "BEGIN:VEVENT"]
  const Footer: seq<string> := ["STATUS:CONFIRMED", "END:VEVENT", "END:VCALENDAR"]

  /** The UID value: the generation instant (`Date.now()`, a parameter here)
      and a fixed domain. */
  function Uid(uidStamp: nat): string
  {
    ToDecimal(uidStamp) + "@salto-nohype.com"
  }

  /** The array literal of `generateICS` before filtering, over the already
      formatted UID and stamps: an absent (falsy) description or location
      leaves an empty entry. */
  function RawLines(uid: string, dtstart: string, dtend: string, title: string,
                    description: Option<string>, location: Option<string>): seq<string>
  {
    Header
    + ["UID:" + uid, "DTSTART:" + dtstart, "DTEND:" + dtend, "SUMMARY:" + title]
    + [if Truthy(description) then "DESCRIPTION:" + description.value else ""]
    + [if Truthy(location) then "LOCATION:" + location.value else ""]
    + Footer
  }

  /** `lines.filter(line => line)`: the non-empty lines, in order. */
  function DropEmpty(lines: seq<string>): (r: seq<string>)
    ensures forall i :: 0 <= i < |r| ==> r[i] != ""
    ensures |r| <= |lines|
  {
    if |lines| == 0 then []
    else (if lines[0] == "" then [] else [lines[0]]) + DropEmpty(lines[1..])
  }

  /** The content lines of a payload. */
  function ContentLines(uid: string, dtstart: string, dtend: string, title: string,
                        description: Option<string>, location: Option<string>): seq<string>
  {
    DropEmpty(RawLines(uid, dtstart, dtend, title, description, location))
  }

  /** `generateICS(title, start, end, description, location)` with the UID
      instant supplied: the content lines separated (not terminated) by
      CRLF. */
  function GenerateIcs(title: string, start: UtcTime, end: UtcTime,
                       description: Option<string>, location: Option<string>, uidStamp: nat): string
  {
    Text.Join(ContentLines(Uid(uidStamp), IcsStamp(start), IcsStamp(end), title, description, location), Crlf)
  }

  // ---------------------------------------------------------------------
  // Reading a payload back
  // ---------------------------------------------------------------------

  /** The event a payload describes. */
  datatype IcsEvent = IcsEvent(uid: string, start: UtcTime, end: UtcTime, summary: string,
                               description: Option<string>, location: Option<string>)

  /** The optional DESCRIPTION and LOCATION lines, in that order. */
  function ParseOptionalLines(m: seq<string>): Option<(Option<string>, Option<string>)>
  {
    if |m| == 0 then Some((None, None))
    else if |m| == 1 then
      if Text.StartsWith(m[0], "DESCRIPTION:") then Some((Some(m[0][12..]), None))
      else if Text.StartsWith(m[0], "LOCATION:") then Some((None, Some(m[0][9..])))
      else None
    else if |m| == 2 && Text.StartsWith(m[0], "DESCRIPTION:") && Text.StartsWith(m[1], "LOCATION:") then
      Some((Some(m[0][12..]), Some(m[1][9..])))
    else None
  }

  /** Splits a payload at CRLF and reads the fixed frame, the UID, the two
      stamps, the summary and the optional lines; `None` for any other
      shape. */
  function ParseIcs(payload: string): Option<IcsEvent>
  {
    var l := Text.Split(payload, Crlf);
    if |l| < 11 || l[..4] != Header || l[|l| - 3..] != Footer then None
    else if !(Text.StartsWith(l[4], "UID:") && Text.StartsWith(l[5], "DTSTART:")
              && Text.StartsWith(l[6], "DTEND:") && Text.StartsWith(l[7], "SUMMARY:")) then None
    else
      var start := ParseStamp(l[5][8..]);
      var end := ParseStamp(l[6][6..]);
      var extra := ParseOptionalLines(l[8..|l| - 3]);
      if start.None? || end.None? || extra.None? then None
      else Some(IcsEvent(l[4][4..], start.value, end.value, l[7][8..], extra.value.0, extra.value.1))
  }

  /** A truthy optional string, or `None`. */
  function Present(s: Option<string>): (r: Option<string>)
    ensures r.Some? <==> Truthy(s)
  {
    if Truthy(s) then s else None
  }

  // ---------------------------------------------------------------------
  // Properties
  // ---------------------------------------------------------------------

  lemma {:induction false} DropEmptyConcat(a: seq<string>, b: seq<string>)
    ensures DropEmpty(a + b) == DropEmpty(a) + DropEmpty(b)
    decreases |a|
  {
    if |a| == 0 {
      assert a + b == b;
    } else {
      assert (a + b)[0] == a[0];
      assert (a + b)[1..] == a[1..] + b;
      DropEmptyConcat(a[1..], b);
    }
  }

  lemma {:induction false} DropEmptyKeeps(a: seq<string>)
    requires forall i :: 0 <= i < |a| ==> a[i] != ""
    ensures DropEmpty(a) == a
    decreases |a|
  {
    if |a| > 0 {
      DropEmptyKeeps(a[1..]);
      assert [a[0]] + a[1..] == a;
    }
  }

  /** The optional part of the payload: DESCRIPTION then LOCATION, each
      present exactly when its value is truthy. */
  function OptionalLines(description: Option<string>, location: Option<string>): seq<string>
  {
    (if Truthy(description) then ["DESCRIPTION:" + description.value] else [])
    + (if Truthy(location) then ["LOCATION:" + location.value] else [])
  }

  /** The content lines are the fixed frame with the optional lines between
      SUMMARY and STATUS, and none of them is empty. */
  lemma ContentLinesLayout(uid: string, dtstart: string, dtend: string, title: string,
                           description: Option<string>, location: Option<string>)
    ensures ContentLines(uid, dtstart, dtend, title, description, location)
      == Header
         + ["UID:" + uid, "DTSTART:" + dtstart, "DTEND:" + dtend, "SUMMARY:" + title]
         + OptionalLines(description, location)
         + Footer
  {
    var fixed := Header + ["UID:" + uid, "DTSTART:" + dtstart, "DTEND:" + dtend, "SUMMARY:" + title];
    var d := [if Truthy(description) then "DESCRIPTION:" + description.value else ""];
    var l := [if Truthy(location) then "LOCATION:" + location.value else ""];
    assert DropEmpty(fixed) == fixed by {
      DropEmptyKeeps(fixed);
    }
    assert DropEmpty(Footer) == Footer by {
      DropEmptyKeeps(Footer);
    }
    assert DropEmpty(d) == (if Truthy(description) then ["DESCRIPTION:" + description.value] else []);
    assert DropEmpty(l) == (if Truthy(location) then ["LOCATION:" + location.value] else []);
    DropEmptyFour(fixed, d, l, Footer);
  }

  /** Dropping empty lines from four consecutive blocks drops them from each
      block, the middle two forming one. */
  lemma DropEmptyFour(a: seq<string>, b: seq<string>, c: seq<string>, e: seq<string>)
    ensures DropEmpty(a + b + c + e) == DropEmpty(a) + (DropEmpty(b) + DropEmpty(c)) + DropEmpty(e)
  {
    var x, y, z, w := DropEmpty(a), DropEmpty(b), DropEmpty(c), DropEmpty(e);
    assert DropEmpty(a + b + c + e) == DropEmpty(a + b + c) + w by { DropEmptyConcat(a + b + c, e); }
    assert DropEmpty(a + b + c) == DropEmpty(a + b) + z by { DropEmptyConcat(a + b, c); }
    assert DropEmpty(a + b) == x + y by { DropEmptyConcat(a, b); }
    assert x + y + z == x + (y + z);
  }

  /** The optional lines read back as the truthy optional values. */
  lemma OptionalLinesRoundTrip(description: Option<string>, location: Option<string>)
    ensures ParseOptionalLines(OptionalLines(description, location))
      == Some((Present(description), Present(location)))
  {
    var opt := OptionalLines(description, location);
    var dl := "DESCRIPTION:" + (if Truthy(description) then description.value else "");
    var ll := "LOCATION:" + (if Truthy(location) then location.value else "");
    assert Text.StartsWith(dl, "DESCRIPTION:") && dl[12..] == (if Truthy(description) then description.value else "");
    assert Text.StartsWith(ll, "LOCATION:") && ll[9..] == (if Truthy(location) then location.value else "");
    assert !Text.StartsWith(ll, "DESCRIPTION:") by {
      assert ll[0] == 'L';
    }
    if Truthy(description) && Truthy(location) {
      assert opt == [dl, ll];
    } else if Truthy(description) {
      assert opt == [dl];
    } else if Truthy(location) {
      assert opt == [ll];
    } else {
      assert opt == [];
    }
  }

  predicate HasLineStarting(lines: seq<string>, prefix: string) {
    exists i :: 0 <= i < |lines| && Text.StartsWith(lines[i], prefix)
  }

  /** Only the optional lines can start with `DESCRIPTION:` or `LOCATION:`:
      every fixed line starts otherwise. */
  lemma FixedLinesDiffer(uid: string, dtstart: string, dtend: string, title: string, x: string)
    requires x in Header + ["UID:" + uid, "DTSTART:" + dtstart, "DTEND:" + dtend, "SUMMARY:" + title] + Footer
    ensures !Text.StartsWith(x, "DESCRIPTION:") && !Text.StartsWith(x, "LOCATION:")
  {
    assert |x| >= 4 && !(x[0] == 'D' && x[1] == 'E') && x[0] != 'L';
  }

  lemma OptionalPresence(description: Option<string>, location: Option<string>, fixed: seq<string>, lines: seq<string>)
    requires |fixed| == 8
    requires forall x :: x in fixed + Footer ==>
      !Text.StartsWith(x, "DESCRIPTION:") && !Text.StartsWith(x, "LOCATION:")
    requires lines == fixed + OptionalLines(description, location) + Footer
    ensures HasLineStarting(lines, "DESCRIPTION:") <==> Truthy(description)
    ensures HasLineStarting(lines, "LOCATION:") <==> Truthy(location)
  {
    var opt := OptionalLines(description, location);
    if Truthy(description) {
      assert Text.StartsWith(lines[8], "DESCRIPTION:");
    }
    if Truthy(location) {
      var k := if Truthy(description) then 9 else 8;
      assert Text.StartsWith(lines[k], "LOCATION:");
    }
    forall i | 0 <= i < |lines| && (i < 8 || i >= 8 + |opt|)
      ensures !Text.StartsWith(lines[i], "DESCRIPTION:") && !Text.StartsWith(lines[i], "LOCATION:")
    {
      assert lines[i] in fixed + Footer;
    }
    forall i | 8 <= i < 8 + |opt|
      ensures Text.StartsWith(lines[i], "DESCRIPTION:") ==> Truthy(description)
      ensures Text.StartsWith(lines[i], "LOCATION:") ==> Truthy(location)
    {
      assert lines[i] == opt[i - 8];
      if Truthy(description) && i == 8 {
        assert lines[i][0] == 'D';
      } else {
        assert lines[i][0] == 'L';
      }
    }
  }

  /** A DESCRIPTION line appears exactly when the description is truthy and a
      LOCATION line exactly when the location is; no line is empty; there
      are eleven lines plus one per optional line present. */
  lemma ContentLinesFacts(uid: string, dtstart: string, dtend: string, title: string,
                          description: Option<string>, location: Option<string>)
    ensures var lines := ContentLines(uid, dtstart, dtend, title, description, location);
      && (forall i :: 0 <= i < |lines| ==> lines[i] != "")
      && (HasLineStarting(lines, "DESCRIPTION:") <==> Truthy(description))
      && (HasLineStarting(lines, "LOCATION:") <==> Truthy(location))
      && |lines| == 11 + (if Truthy(description) then 1 else 0) + (if Truthy(location) then 1 else 0)
  {
    ContentLinesLayout(uid, dtstart, dtend, title, description, location);
    var fixed := Header + ["UID:" + uid, "DTSTART:" + dtstart, "DTEND:" + dtend, "SUMMARY:" + title];
    forall x | x in fixed + Footer
      ensures !Text.StartsWith(x, "DESCRIPTION:") && !Text.StartsWith(x, "LOCATION:")
    {
      FixedLinesDiffer(uid, dtstart, dtend, title, x);
    }
    OptionalPresence(description, location, fixed, ContentLines(uid, dtstart, dtend, title, description, location));
  }

  /** The payload opens with BEGIN:VCALENDAR and closes with END:VCALENDAR:
      CRLF separates lines and never terminates the last one. */
  lemma PayloadFrame(uid: string, dtstart: string, dtend: string, title: string,
                     description: Option<string>, location: Option<string>)
    ensures var payload := Text.Join(ContentLines(uid, dtstart, dtend, title, description, location), Crlf);
      Text.StartsWith(payload, "BEGIN:VCALENDAR") && payload[|payload| - 13..] == "END:VCALENDAR"
  {
    ContentLinesLayout(uid, dtstart, dtend, title, description, location);
    var lines := ContentLines(uid, dtstart, dtend, title, description, location);
    assert lines[0] == "BEGIN:VCALENDAR" && lines[|lines| - 1] == "END:VCALENDAR";
    JoinEnds(lines, Crlf);
  }

  predicate NoCr(s: string) {
    '\r' !in s
  }

  /** Reading back the CRLF-joined content lines recovers the fields, when
      no field contains a carriage return and both stamps parse. */
  lemma ParseContentLines(uid: string, dtstart: string, dtend: string, title: string,
                          description: Option<string>, location: Option<string>)
    requires NoCr(uid) && NoCr(dtstart) && NoCr(dtend) && NoCr(title)
    requires description.Some? ==> NoCr(description.value)
    requires location.Some? ==> NoCr(location.value)
    requires ParseStamp(dtstart).Some? && ParseStamp(dtend).Some?
    ensures ParseIcs(Text.Join(ContentLines(uid, dtstart, dtend, title, description, location), Crlf))
      == Some(IcsEvent(uid, ParseStamp(dtstart).value, ParseStamp(dtend).value, title,
                       Present(description), Present(location)))
  {
    var lines := ContentLines(uid, dtstart, dtend, title, description, location);
    var opt := OptionalLines(description, location);
    var fixed := ["UID:" + uid, "DTSTART:" + dtstart, "DTEND:" + dtend, "SUMMARY:" + title];
    assert lines == Header + fixed + opt + Footer by {
      ContentLinesLayout(uid, dtstart, dtend, title, description, location);
    }
    assert Text.Split(Text.Join(lines, Crlf), Crlf) == lines by {
      LinesNoCr(lines, fixed, opt);
      Text.SplitJoin(lines, Crlf);
    }
    OptionalLinesRoundTrip(description, location);
    assert fixed[0][4..] == uid && fixed[1][8..] == dtstart && fixed[2][6..] == dtend && fixed[3][8..] == title;
    ReadLines(lines, fixed, opt);
  }

  lemma LinesNoCr(lines: seq<string>, fixed: seq<string>, opt: seq<string>)
    requires lines == Header + fixed + opt + Footer
    requires forall i :: 0 <= i < |fixed| ==> NoCr(fixed[i])
    requires forall i :: 0 <= i < |opt| ==> NoCr(opt[i])
    ensures Text.Free(lines, Crlf)
  {
    forall i | 0 <= i < |lines| ensures '\r' !in lines[i] {
      if i < 4 {
        assert lines[i] in Header;
      } else if i < 4 + |fixed| {
        assert lines[i] == fixed[i - 4];
      } else if i < 4 + |fixed| + |opt| {
        assert lines[i] == opt[i - 4 - |fixed|];
      } else {
        assert lines[i] in Footer;
      }
    }
  }

  /** Reading a line sequence laid out as the fixed frame around `opt`. */
  lemma ReadLines(lines: seq<string>, fixed: seq<string>, opt: seq<string>)
    requires |fixed| == 4 && |opt| <= 2
    requires Text.StartsWith(fixed[0], "UID:") && Text.StartsWith(fixed[1], "DTSTART:")
    requires Text.StartsWith(fixed[2], "DTEND:") && Text.StartsWith(fixed[3], "SUMMARY:")
    requires lines == Header + fixed + opt + Footer
    requires ParseStamp(fixed[1][8..]).Some? && ParseStamp(fixed[2][6..]).Some?
    requires ParseOptionalLines(opt).Some?
    ensures ParseIcs(Text.Join(lines, Crlf)) == Some(IcsEvent(fixed[0][4..],
      ParseStamp(fixed[1][8..]).value, ParseStamp(fixed[2][6..]).value, fixed[3][8..],
      ParseOptionalLines(opt).value.0, ParseOptionalLines(opt).value.1))
    requires Text.Split(Text.Join(lines, Crlf), Crlf) == lines
  {
    assert lines[..4] == Header && lines[|lines| - 3..] == Footer;
    assert lines[4..8] == fixed;
    assert lines[8..|lines| - 3] == opt;
  }

  /** The UID is digits and a domain, with no carriage return. */
  lemma UidNoCr(uidStamp: nat)
    ensures NoCr(Uid(uidStamp))
  {
    DigitsExclude(ToDecimal(uidStamp), '\r');
  }

  /** `generateICS` round trip: reading the payload back yields the UID, both
      instants to the second, the title, and the description and location
      exactly when they are truthy, provided no text field contains a
      carriage return. */
  lemma IcsRoundTrip(title: string, start: UtcTime, end: UtcTime,
                     description: Option<string>, location: Option<string>, uidStamp: nat)
    requires ValidTime(start) && ValidTime(end)
    requires NoCr(title)
    requires description.Some? ==> NoCr(description.value)
    requires location.Some? ==> NoCr(location.value)
    ensures ParseIcs(GenerateIcs(title, start, end, description, location, uidStamp))
      == Some(IcsEvent(Uid(uidStamp), start.(millis := 0), end.(millis := 0), title,
                       Present(description), Present(location)))
  {
    StampRoundTrip(start);
    StampRoundTrip(end);
    IcsStampIsCompact(start);
    IcsStampIsCompact(end);
    FormExcludes(IcsStamp(start), '\r');
    FormExcludes(IcsStamp(end), '\r');
    UidNoCr(uidStamp);
    ParseContentLines(Uid(uidStamp), IcsStamp(start), IcsStamp(end), title, description, location);
  }

  /** A joined string starts with its first piece and ends with its last. */
  lemma {:induction false} JoinEnds(lines: seq<string>, sep: string)
    requires |lines| >= 1
    ensures var p := Text.Join(lines, sep);
      && |p| >= |lines[0]| && p[..|lines[0]|] == lines[0]
      && |p| >= |lines[|lines| - 1]| && p[|p| - |lines[|lines| - 1]|..] == lines[|lines| - 1]
    decreases |lines|
  {
    if |lines| > 1 {
      JoinEnds(lines[1..], sep);
      var rest := Text.Join(lines[1..], sep);
      assert Text.Join(lines, sep) == lines[0] + sep + rest;
    }
  }
}
