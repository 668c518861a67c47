/** Padding and the worked example of the alert parser. */
module AlertParsingExamples {
  import opened Telemetry
  import opened AlertParsing

  predicate AllSpace(w: string)
  {
    forall i :: 0 <= i < |w| ==> IsSpace(w[i])
  }

  /** Leading white space in front of a non-blank start is cut off. */
  lemma {:induction false} TrimStartPadded(lead: string, t: string)
    requires AllSpace(lead)
    requires t == [] || !IsSpace(t[0])
    ensures TrimStart(lead + t) == t
  {
    if lead == [] {
      assert lead + t == t;
    } else {
      assert (lead + t)[1..] == lead[1..] + t;
      TrimStartPadded(lead[1..], t);
    }
  }

  /** Trailing white space behind a non-blank end is cut off. */
  lemma {:induction false} TrimEndPadded(t: string, trail: string)
    requires AllSpace(trail)
    requires t == [] || !IsSpace(t[|t| - 1])
    ensures TrimEnd(t + trail) == t
  {
    if trail == [] {
      assert t + trail == t;
    } else {
      assert (t + trail)[..|t + trail| - 1] == t + trail[..|trail| - 1];
      TrimEndPadded(t, trail[..|trail| - 1]);
    }
  }

  /** Trim removes exactly the padding around a trimmed text, and a blank
      string trims to the empty string. */
  lemma TrimPadded(lead: string, m: string, trail: string)
    requires AllSpace(lead) && AllSpace(trail) && IsTrimmed(m)
    ensures Trim(lead + m + trail) == m
  {
    if m == [] {
      assert lead + m + trail == [] + (lead + trail);
      TrimEndPadded([], lead + trail);
      assert TrimStart(lead + trail) == [];
    } else {
      assert lead + m + trail == lead + (m + trail);
      TrimStartPadded(lead, m + trail);
      TrimEndPadded(m, trail);
    }
  }

  /** White space holds no delimiter. */
  lemma SpaceHasNoDelimiter(w: string)
    requires AllSpace(w)
    ensures Delimiter !in w
  {
    assert !IsSpace(Delimiter);
  }

  /** A padded alert parses to the alert alone. */
  lemma ParsePadded(lead: string, a: string, trail: string)
    requires AllSpace(lead) && AllSpace(trail)
    requires a != [] && IsTrimmed(a) && Delimiter !in a
    ensures ParseAlerts(Some(lead + a + trail)) == [a]
  {
    SpaceHasNoDelimiter(lead);
    SpaceHasNoDelimiter(trail);
    assert Delimiter !in lead + a + trail;
    TrimPadded(lead, a, trail);
    ParseSingle(lead + a + trail);
  }

  /** A blank segment parses to nothing. */
  lemma ParseBlank(w: string)
    requires AllSpace(w)
    ensures ParseAlerts(Some(w)) == []
  {
    SpaceHasNoDelimiter(w);
    TrimPadded(w, [], []);
    assert w + [] + [] == w;
    ParseSingle(w);
  }

  /** Two padded alerts around a blank segment: the blank segment vanishes,
      the padding is cut off and the order is kept. */
  lemma ParsePaddedPair(l1: string, a: string, t1: string, w: string, l2: string, b: string, t2: string)
    requires AllSpace(l1) && AllSpace(t1) && AllSpace(w) && AllSpace(l2) && AllSpace(t2)
    requires a != [] && IsTrimmed(a) && Delimiter !in a
    requires b != [] && IsTrimmed(b) && Delimiter !in b
    ensures ParseAlerts(Some(l1 + a + t1 + [Delimiter] + w + [Delimiter] + l2 + b + t2)) == [a, b]
  {
    var first, second := l1 + a + t1, l2 + b + t2;
    var rest := w + [Delimiter] + second;
    calc {
      ParseAlerts(Some(l1 + a + t1 + [Delimiter] + w + [Delimiter] + l2 + b + t2));
      { assert l1 + a + t1 + [Delimiter] + w + [Delimiter] + l2 + b + t2 == first + [Delimiter] + rest; }
      ParseAlerts(Some(first + [Delimiter] + rest));
      { ParseConcat(first, rest); }
      ParseAlerts(Some(first)) + ParseAlerts(Some(rest));
      { ParseConcat(w, second); }
      ParseAlerts(Some(first)) + (ParseAlerts(Some(w)) + ParseAlerts(Some(second)));
      { ParsePadded(l1, a, t1); ParseBlank(w); ParsePadded(l2, b, t2); }
      [a] + ([] + [b]);
      [a, b];
    }
  }

  /** Worked example: a padded message with a blank segment gives the two
      alerts, trimmed and in order. */
  lemma ParseExample()
    ensures ParseAlerts(Some("  Low SpO2 ; ;High Temp ")) == ["Low SpO2", "High Temp"]
  {
    var a, b := "Low SpO2", "High Temp";
    assert "  Low SpO2 ; ;High Temp " == "  " + a + " " + [Delimiter] + " " + [Delimiter] + [] + b + " ";
    assert a != [] && IsTrimmed(a) && Delimiter !in a by {}
    assert b != [] && IsTrimmed(b) && Delimiter !in b by {}
    assert AllSpace("  ") && AllSpace(" ") && AllSpace([]) by {}
    ParsePaddedPair("  ", a, " ", " ", [], b, " ");
  }

  /** Duplicates are kept: the same alert twice is listed twice. */
  lemma ParseKeepsDuplicates(a: string)
    requires a != [] && IsTrimmed(a) && Delimiter !in a
    ensures ParseAlerts(Some(a + [Delimiter] + a)) == [a, a]
  {
    TrimTrimmed(a);
    assert ParseAlerts(Some(a)) == [a] by {
      ParseSingle(a);
    }
    ParseConcat(a, a);
  }
}
