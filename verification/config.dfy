/** The event configuration (src/config/evento.ts): the session record and
    the three configured sessions. ISO instants are held already parsed, as
    UTC components. */
module EventConfig {
  import opened Optional
  import opened DateTime

  /** The optional `dia` tag of a session: 'sexta' | 'sabado' | 'domingo'. */
  datatype Day = Sexta | Sabado | Domingo

  /** The tag's string value, as stored in the configuration. */
  function DayId(d: Day): string
  {
    match d
    case Sexta => "sexta"
    case Sabado => "sabado"
    case Domingo => "domingo"
  }

  /** `Sessao`: an unnamed or blank `pregador` marks a mystery slot. */
  datatype Session = Session(
    id: string,
    pregador: Option<string>,
    imagem: Option<string>,
    inicio: UtcTime,
    fim: UtcTime,
    descricaoCurta: Option<string>,
    dia: Option<Day>)

  /** `eventoConfig.datasESessoes`. */
  const Sessions: seq<Session> := [
    Session("s1", Some("João Heuldes"), Some("joao_heuldes.png"),
      UtcTime(2025, 11, 14, 19, 0, 0, 0), UtcTime(2025, 11, 14, 20, 0, 0, 0), None, None),
    Session("s2", Some(""), Some("pregador_1_placeholder.png"),
      UtcTime(2025, 11, 15, 19, 0, 0, 0), UtcTime(2025, 11, 15, 20, 0, 0, 0), None, None),
    Session("s3", Some(""), Some("pregador_2_placeholder.png"),
      UtcTime(2025, 11, 16, 19, 0, 0, 0), UtcTime(2025, 11, 16, 20, 0, 0, 0), None, None)
  ]

  /** Every configured session has valid instants and lasts exactly one hour;
      none carries a day tag. */
  lemma ConfiguredSessions()
    ensures |Sessions| == 3
    ensures forall s :: s in Sessions ==> ValidTime(s.inicio) && ValidTime(s.fim)
    ensures forall s :: s in Sessions ==> EpochMillis(s.fim) - EpochMillis(s.inicio) == 3600000
    ensures forall s :: s in Sessions ==> s.dia.None?
  {
    forall s | s in Sessions
      ensures EpochMillis(s.fim) - EpochMillis(s.inicio) == 3600000
    {
      SameDayDifference(s.inicio, s.fim);
    }
  }
}

/** The calendar stamps of the configured sessions. */
module ConfiguredStamps {
  import opened DateTime
  import Decimal
  import EventConfig

  /** The calendar stamp of a whole hour on 14 November 2025, the day of the
      first configured session, which runs from 19:00 to 20:00 UTC. The
      instant and the hour digits are parameters, and the padded fields are
      established one literal at a time by the small lemmas below, because
      evaluating the stamp of the configured record as one constant
      expression is more than the verifier can afford. */
  lemma StampOnFirstDay(t: UtcTime, hour: string)
    requires t.year == 2025 && t.month == 11 && t.day == 14
    requires t.minute == 0 && t.second == 0 && t.millis == 0
    requires (t.hour == 19 && hour == "19") || (t.hour == 20 && hour == "20")
    ensures IcsStamp(t) == "20251114T" + hour + "0000Z"
  {
    IcsStampIsCompact(t);
    assert CompactDate(t) == "20251114" by { FirstSessionDate(t); }
    var h, z := Decimal.ZeroPad(t.hour, 2), Decimal.ZeroPad(0, 2);
    assert z == "00" by { Pad00(); }
    assert h == hour by {
      if t.hour == 19 { Pad19(); } else { Pad20(); }
    }
    Assemble(CompactDate(t), h, z, hour);
  }

  lemma Assemble(date: string, h: string, zero: string, hour: string)
    requires date == "20251114" && zero == "00" && h == hour
    ensures date + "T" + (h + zero + zero) + "Z" == "20251114T" + hour + "0000Z"
  {
  }

  lemma FirstSessionDate(t: UtcTime)
    requires t.year == 2025 && t.month == 11 && t.day == 14
    ensures CompactDate(t) == "20251114"
  {
    var y, m, d := Decimal.ZeroPad(t.year, 4), Decimal.ZeroPad(t.month, 2), Decimal.ZeroPad(t.day, 2);
    assert y == "2025" by { Pad2025(); }
    assert m == "11" by { Pad11(); }
    assert d == "14" by { Pad14(); }
    DateLiteral(y, m, d);
  }

  lemma DateLiteral(y: string, m: string, d: string)
    requires y == "2025" && m == "11" && d == "14"
    ensures y + m + d == "20251114"
  {
  }

  lemma Pad2025()
    ensures Decimal.ZeroPad(2025, 4) == "2025"
  {
    assert Decimal.ToDecimal(2) == "2";
    assert Decimal.ToDecimal(20) == "20";
    assert Decimal.ToDecimal(202) == "202";
  }

  lemma Pad00()
    ensures Decimal.ZeroPad(0, 2) == "00"
  {
    assert Decimal.ToDecimal(0) == "0";
  }

  lemma Pad11()
    ensures Decimal.ZeroPad(11, 2) == "11"
  {
    assert Decimal.ToDecimal(1) == "1";
  }

  lemma Pad14()
    ensures Decimal.ZeroPad(14, 2) == "14"
  {
    assert Decimal.ToDecimal(1) == "1";
  }

  lemma Pad19()
    ensures Decimal.ZeroPad(19, 2) == "19"
  {
    assert Decimal.ToDecimal(1) == "1";
  }

  lemma Pad20()
    ensures Decimal.ZeroPad(20, 2) == "20"
  {
    assert Decimal.ToDecimal(2) == "2";
  }
}
