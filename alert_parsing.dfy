/** The alert-string parser both App components run on every render:
    `msg ? msg.split(";").map(m => m.trim()).filter(Boolean) : []`. */
module AlertParsing {
  import opened Telemetry

  const Delimiter: char := ';'

  /** The characters `String.prototype.trim` removes, by code point: the
      ECMAScript WhiteSpace set (tab, vertical tab, form feed, space,
      no-break space, byte order mark and the Unicode space separators
      U+1680, U+2000 to U+200A, U+202F, U+205F and U+3000) and the
      LineTerminator set (line feed, carriage return, line and paragraph
      separators). */
  predicate IsSpace(c: char)
  {
    var n := c as int;
    (0x09 <= n <= 0x0D) || n == 0x20 || n == 0xA0 || n == 0x1680
    || (0x2000 <= n <= 0x200A) || n == 0x2028 || n == 0x2029 || n == 0x202F
    || n == 0x205F || n == 0x3000 || n == 0xFEFF
  }

  /** Number of delimiters in s. */
  function Count(s: string): nat
  {
    if s == [] then 0
    else (if s[0] == Delimiter then 1 else 0) + Count(s[1..])
  }

  /** `s.split(";")`: the maximal delimiter-free pieces between delimiters,
      one more than there are delimiters (so "" gives [""]). */
  function Split(s: string): (parts: seq<string>)
    ensures |parts| == Count(s) + 1
    ensures forall i :: 0 <= i < |parts| ==> Delimiter !in parts[i]
  {
    if s == [] then [[]]
    else
      var rest := Split(s[1..]);
      if s[0] == Delimiter then [[]] + rest
      else [[s[0]] + rest[0]] + rest[1..]
  }

  /** `parts.join(";")`, the inverse of Split. */
  function Join(parts: seq<string>): string
    requires |parts| > 0
  {
    if |parts| == 1 then parts[0]
    else parts[0] + [Delimiter] + Join(parts[1..])
  }

  /** Removes leading white space. */
  function TrimStart(s: string): (r: string)
    ensures |r| <= |s| && r == s[|s| - |r|..]
    ensures r == [] || !IsSpace(r[0])
    ensures forall i :: 0 <= i < |s| - |r| ==> IsSpace(s[i])
  {
    if s != [] && IsSpace(s[0]) then
      var r := TrimStart(s[1..]);
      assert s[1..][|s| - 1 - |r|..] == s[|s| - |r|..];
      assert forall i :: 1 <= i < |s| - |r| ==> s[i] == s[1..][i - 1];
      r
    else s
  }

  /** Removes trailing white space. */
  function TrimEnd(s: string): (r: string)
    ensures |r| <= |s| && r == s[..|r|]
    ensures r == [] || !IsSpace(r[|r| - 1])
    ensures forall i :: |r| <= i < |s| ==> IsSpace(s[i])
  {
    if s != [] && IsSpace(s[|s| - 1]) then
      var r := TrimEnd(s[..|s| - 1]);
      assert s[..|s| - 1][..|r|] == s[..|r|];
      assert forall i :: |r| <= i < |s| - 1 ==> s[i] == s[..|s| - 1][i];
      r
    else s
  }

  predicate IsTrimmed(s: string)
  {
    s == [] || (!IsSpace(s[0]) && !IsSpace(s[|s| - 1]))
  }

  /** `s.trim()`. */
  function Trim(s: string): (r: string)
    ensures IsTrimmed(r)
    ensures |r| <= |s|
  {
    var t := TrimStart(s);
    var r := TrimEnd(t);
    assert r != [] ==> r[0] == t[0];
    r
  }

  /** White space after a prefix of a suffix of s is white space in s. */
  lemma SpaceAfterSlice(s: string, k: nat, m: nat)
    requires k + m <= |s|
    requires forall i :: m <= i < |s| - k ==> IsSpace(s[k..][i])
    ensures s[k..][..m] == s[k..k + m]
    ensures forall i :: k + m <= i < |s| ==> IsSpace(s[i])
  {
    forall i | k + m <= i < |s|
      ensures IsSpace(s[i])
    {
      assert s[i] == s[k..][i - k];
    }
  }

  /** Trim gives the middle of s, from index k on, with only white space
      cut off either side. */
  lemma TrimIsMiddle(s: string) returns (k: nat)
    ensures k + |Trim(s)| <= |s| && Trim(s) == s[k..k + |Trim(s)|]
    ensures forall i :: 0 <= i < k ==> IsSpace(s[i])
    ensures forall i :: k + |Trim(s)| <= i < |s| ==> IsSpace(s[i])
  {
    var t := TrimStart(s);
    var r := TrimEnd(t);
    k := |s| - |t|;
    assert Trim(s) == r;
    SpaceAfterSlice(s, k, |r|);
  }

  /** `.map(msg => msg.trim())`. */
  function TrimAll(xs: seq<string>): (r: seq<string>)
    ensures |r| == |xs|
    ensures forall i :: 0 <= i < |r| ==> r[i] == Trim(xs[i])
  {
    if xs == [] then [] else [Trim(xs[0])] + TrimAll(xs[1..])
  }

  /** `.filter(Boolean)`: drops the empty strings, keeps the rest in order. */
  function NonEmpty(xs: seq<string>): (r: seq<string>)
    ensures |r| <= |xs|
    ensures forall i :: 0 <= i < |r| ==> r[i] != [] && r[i] in xs
    ensures forall x :: x in xs && x != [] ==> x in r
  {
    if xs == [] then []
    else (if xs[0] == [] then [] else [xs[0]]) + NonEmpty(xs[1..])
  }

  /** The split/trim/filter chain on a string. */
  function Segments(s: string): seq<string>
  {
    NonEmpty(TrimAll(Split(s)))
  }

  /** The alert list of a record's alertMessage; a falsy (missing or empty)
      message gives no alerts. Every alert is non-empty, trimmed and free of
      the delimiter, and there is at most one per segment. */
  function ParseAlerts(msg: Option<string>): (alerts: seq<string>)
    ensures msg == None || msg == Some("") ==> alerts == []
    ensures forall i :: 0 <= i < |alerts| ==>
              alerts[i] != [] && IsTrimmed(alerts[i]) && Delimiter !in alerts[i]
    ensures msg.Some? ==> |alerts| <= Count(msg.value) + 1
  {
    match msg
    case None => []
    case Some(s) =>
      if s == [] then []
      else
        var r := Segments(s);
        forall i | 0 <= i < |r|
          ensures r[i] != [] && IsTrimmed(r[i]) && Delimiter !in r[i]
        {
          var parts := Split(s);
          var j :| 0 <= j < |TrimAll(parts)| && TrimAll(parts)[j] == r[i];
          TrimKeepsAbsent(parts[j], Delimiter);
        }
        r
  }

  /** Trim only cuts characters off, so it adds none. */
  lemma TrimKeepsAbsent(s: string, c: char)
    requires c !in s
    ensures c !in Trim(s)
  {
    var k := TrimIsMiddle(s);
  }

  /** The falsy-string guard changes nothing: the chain itself maps "" to []. */
  lemma GuardIsRedundant(s: string)
    ensures ParseAlerts(Some(s)) == Segments(s)
  {
    if s == [] {
      var empty: string := [];
      assert Split(s) == [empty];
      assert Trim(empty) == empty;
      var trimmed := TrimAll([empty]);
      assert trimmed == [empty] by {
        assert |trimmed| == 1 && trimmed[0] == Trim(empty);
      }
      assert NonEmpty(trimmed) == [] + NonEmpty(trimmed[1..]);
    }
  }

  /** Splitting at a delimiter splits the pieces. */
  lemma {:induction false} SplitConcat(a: string, b: string)
    ensures Split(a + [Delimiter] + b) == Split(a) + Split(b)
  {
    if a == [] {
      assert a + [Delimiter] + b == [Delimiter] + b;
      assert ([Delimiter] + b)[1..] == b;
    } else {
      assert (a + [Delimiter] + b)[1..] == a[1..] + [Delimiter] + b;
      SplitConcat(a[1..], b);
    }
  }

  /** A delimiter-free string is a single piece. */
  lemma {:induction false} SplitSingle(s: string)
    requires Delimiter !in s
    ensures Split(s) == [s]
  {
    if s != [] {
      assert s[0] != Delimiter && Delimiter !in s[1..];
      SplitSingle(s[1..]);
      assert [s[0]] + s[1..] == s;
    }
  }

  /** Joining the pieces restores the string. */
  lemma {:induction false} JoinSplit(s: string)
    ensures Join(Split(s)) == s
  {
    if s != [] {
      JoinSplit(s[1..]);
      var rest := Split(s[1..]);
      if s[0] == Delimiter {
        assert Split(s) == [[]] + rest;
        assert ([[]] + rest)[1..] == rest;
      } else if |rest| == 1 {
        assert Split(s) == [[s[0]] + rest[0]];
      } else {
        var parts := Split(s);
        assert parts[1..] == rest[1..];
        assert Join(rest) == rest[0] + [Delimiter] + Join(rest[1..]);
      }
    }
  }

  /** Splitting a join of delimiter-free pieces gives the pieces back. */
  lemma {:induction false} SplitJoin(parts: seq<string>)
    requires |parts| > 0
    requires forall i :: 0 <= i < |parts| ==> Delimiter !in parts[i]
    ensures Split(Join(parts)) == parts
  {
    SplitSingle(parts[0]);
    if |parts| > 1 {
      SplitJoin(parts[1..]);
      SplitConcat(parts[0], Join(parts[1..]));
      assert [parts[0]] + parts[1..] == parts;
    }
  }

  lemma {:induction false} TrimAllConcat(xs: seq<string>, ys: seq<string>)
    ensures TrimAll(xs + ys) == TrimAll(xs) + TrimAll(ys)
  {
    if xs != [] {
      assert (xs + ys)[1..] == xs[1..] + ys;
      TrimAllConcat(xs[1..], ys);
    } else {
      assert xs + ys == ys;
    }
  }

  lemma {:induction false} NonEmptyConcat(xs: seq<string>, ys: seq<string>)
    ensures NonEmpty(xs + ys) == NonEmpty(xs) + NonEmpty(ys)
  {
    if xs != [] {
      assert (xs + ys)[1..] == xs[1..] + ys;
      NonEmptyConcat(xs[1..], ys);
    } else {
      assert xs + ys == ys;
    }
  }

  /** Order: the alerts of `a;b` are those of a followed by those of b, with
      nothing merged, dropped or deduplicated. */
  lemma ParseConcat(a: string, b: string)
    ensures ParseAlerts(Some(a + [Delimiter] + b)) == ParseAlerts(Some(a)) + ParseAlerts(Some(b))
  {
    GuardIsRedundant(a);
    GuardIsRedundant(b);
    GuardIsRedundant(a + [Delimiter] + b);
    SplitConcat(a, b);
    TrimAllConcat(Split(a), Split(b));
    NonEmptyConcat(TrimAll(Split(a)), TrimAll(Split(b)));
  }

  /** One segment yields its trimmed text, or nothing when it is blank. */
  lemma ParseSingle(s: string)
    requires Delimiter !in s
    ensures ParseAlerts(Some(s)) == if Trim(s) == [] then [] else [Trim(s)]
  {
    GuardIsRedundant(s);
    SplitSingle(s);
    assert TrimAll([s]) == [Trim(s)];
  }

  /** A trimmed string is its own trim. */
  lemma TrimTrimmed(s: string)
    requires IsTrimmed(s)
    ensures Trim(s) == s
  {
  }

  /** Trimming a list of trimmed strings changes nothing. */
  lemma {:induction false} TrimAllTrimmed(xs: seq<string>)
    requires forall i :: 0 <= i < |xs| ==> IsTrimmed(xs[i])
    ensures TrimAll(xs) == xs
  {
    if xs != [] {
      TrimTrimmed(xs[0]);
      TrimAllTrimmed(xs[1..]);
      assert [xs[0]] + xs[1..] == xs;
    }
  }

  /** Filtering a list of non-empty strings changes nothing. */
  lemma {:induction false} NonEmptyAllNonEmpty(xs: seq<string>)
    requires forall i :: 0 <= i < |xs| ==> xs[i] != []
    ensures NonEmpty(xs) == xs
  {
    if xs != [] {
      NonEmptyAllNonEmpty(xs[1..]);
      assert [xs[0]] + xs[1..] == xs;
    }
  }

  /** Re-parsing the `;`-join of a list of clean alerts gives the list back;
      in particular parsing the joined output of ParseAlerts is idempotent. */
  lemma ParseJoin(alerts: seq<string>)
    requires |alerts| > 0
    requires forall i :: 0 <= i < |alerts| ==>
               alerts[i] != [] && IsTrimmed(alerts[i]) && Delimiter !in alerts[i]
    ensures ParseAlerts(Some(Join(alerts))) == alerts
  {
    GuardIsRedundant(Join(alerts));
    SplitJoin(alerts);
    TrimAllTrimmed(alerts);
    NonEmptyAllNonEmpty(alerts);
  }

  lemma ParseIdempotent(msg: Option<string>)
    requires ParseAlerts(msg) != []
    ensures ParseAlerts(Some(Join(ParseAlerts(msg)))) == ParseAlerts(msg)
  {
    ParseJoin(ParseAlerts(msg));
  }
}
