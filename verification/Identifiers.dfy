/** Printing and parsing of dotted names and comma-separated lists (utils/identifier.rs). */
module Identifiers {
  import opened Prelude

  // ----- the regular expressions -----

  predicate IsNameStart(c: char) { 'a' <= c <= 'z' || 'A' <= c <= 'Z' || c == '_' }

  predicate IsNameChar(c: char) { IsNameStart(c) || '0' <= c <= '9' }

  /** `UNQUOTED_IDENTIFIER`, on the whole text. One or more of them in a row are one of them. */
  predicate IsUnquoted(s: string) { s != "" && IsNameStart(s[0]) && forall i | 0 <= i < |s| :: IsNameChar(s[i]) }

  /** What may stand between the quotes: other characters and doubled quotes, at least one. */
  predicate IsContent(s: string) {
    if s == "" then false
    else if s[0] != '"' then |s| == 1 || IsContent(s[1..])
    else |s| >= 2 && s[1] == '"' && (|s| == 2 || IsContent(s[2..]))
  }

  /** `QUOTED_IDENTIFIER`, on the whole text. */
  predicate IsQuoted(s: string) { |s| >= 3 && s[0] == '"' && s[|s| - 1] == '"' && IsContent(s[1..|s| - 1]) }

  /** One or more quoted identifiers in a row. */
  ghost predicate IsQuotedPlus(s: string)
    decreases |s|
  {
    IsQuoted(s) || exists k :: 0 < k < |s| && IsQuoted(s[..k]) && IsQuotedPlus(s[k..])
  }

  /** `DOT_SEPARATED_QUOTED_IDENTIFIERS`: an identifier, then dots each followed by identifiers. */
  ghost predicate IsDottedQuoted(s: string) { exists k :: 0 < k <= |s| && IsQuoted(s[..k]) && IsDottedTail(s[k..]) }

  ghost predicate IsDottedTail(s: string)
    decreases |s|
  {
    s == "" || (s[0] == '.' && exists k :: 1 < k <= |s| && IsQuotedPlus(s[1..k]) && IsDottedTail(s[k..]))
  }

  predicate IsIdentifier(s: string) { IsUnquoted(s) || IsQuoted(s) }

  /** `COMMA_SEPARATED_IDENTIFIERS`. */
  ghost predicate IsCommaList(s: string) { exists k :: 0 < k <= |s| && IsIdentifier(s[..k]) && IsCommaTail(s[k..]) }

  ghost predicate IsCommaTail(s: string)
    decreases |s|
  {
    s == "" || (s[0] == ',' && exists k :: 1 < k <= |s| && IsIdentifier(s[1..k]) && IsCommaTail(s[k..]))
  }

  // ----- leftmost, greedy matching -----

  /**
   * The end of the quoted identifier whose content has been matched up to `i`: as much content as
   * possible, giving back a doubled quote when no closing quote follows otherwise.
   */
  function CloseQuote(s: string, i: nat, some: bool): (end: Option<nat>)
    requires i <= |s|
    ensures end.Some? ==> i < end.value <= |s| && s[end.value - 1] == '"' && (some || i + 1 < end.value)
    decreases |s| - i
  {
    if i == |s| then None
    else if s[i] != '"' then CloseQuote(s, i + 1, true)
    else if i + 1 < |s| && s[i + 1] == '"' then
      var longer := CloseQuote(s, i + 2, true);
      if longer.Some? then longer else if some then Some(i + 1) else None
    else if some then Some(i + 1)
    else None
  }

  /** A match of `QUOTED_IDENTIFIER` that starts at `i`. */
  function QuotedAt(s: string, i: nat): (end: Option<nat>)
    requires i < |s|
    ensures end.Some? ==> i + 2 < end.value <= |s|
  {
    if s[i] == '"' then CloseQuote(s, i + 1, false) else None
  }

  /** The contents of all matches of `QUOTED_IDENTIFIER` from `i` on: `captures_iter`. */
  function Captures(s: string, i: nat): seq<string>
    requires i <= |s|
    decreases |s| - i
  {
    if i == |s| then []
    else
      match QuotedAt(s, i)
      case Some(end) => [s[i + 1..end - 1]] + Captures(s, end)
      case None => Captures(s, i + 1)
  }

  /** The end of the unquoted identifier that covers `i`. */
  function NameEnd(s: string, i: nat): (end: nat)
    requires i <= |s|
    ensures i <= end <= |s|
    decreases |s| - i
  {
    if i < |s| && IsNameChar(s[i]) then NameEnd(s, i + 1) else i
  }

  /** All matches of `IDENTIFIER` from `i` on: `find_iter`. */
  function Identifiers(s: string, i: nat): seq<string>
    requires i <= |s|
    decreases |s| - i
  {
    if i == |s| then []
    else if IsNameStart(s[i]) then
      var end := NameEnd(s, i + 1);
      [s[i..end]] + Identifiers(s, end)
    else
      match QuotedAt(s, i)
      case Some(end) => [s[i..end]] + Identifiers(s, end)
      case None => Identifiers(s, i + 1)
  }

  // ----- the functions -----

  /** `replace("\"", "\"\"")`. */
  function Quote(s: string): string {
    if s == "" then "" else (if s[0] == '"' then "\"\"" else [s[0]]) + Quote(s[1..])
  }

  /** `replace("\"\"", "\"")`. */
  function Unquote(s: string): (r: string)
    ensures s != "" ==> r != ""
  {
    if s == "" then ""
    else if |s| >= 2 && s[0] == '"' && s[1] == '"' then "\"" + Unquote(s[2..])
    else [s[0]] + Unquote(s[1..])
  }

  /** `split('.')`. */
  function Split(s: string): (parts: seq<string>)
    ensures parts != []
  {
    if s == "" then [""]
    else
      var rest := Split(s[1..]);
      if s[0] == '.' then [""] + rest else [[s[0]] + rest[0]] + rest[1..]
  }

  /** `DOT_SEPARATED_UNQUOTED_IDENTIFIERS`: every part between dots is an identifier. */
  predicate IsDottedUnquoted(s: string) { forall i | 0 <= i < |Split(s)| :: IsUnquoted(Split(s)[i]) }

  ghost function ParseIdentifier(s: string): Option<seq<string>> {
    if IsDottedUnquoted(s) then Some(Split(s))
    else if IsDottedQuoted(s) then Some(Map(Unquote, Captures(s, 0)))
    else None
  }

  function Quoted(s: string): string { "\"" + Quote(s) + "\"" }

  function Join(parts: seq<string>, separator: char): string {
    if parts == [] then "" else if |parts| == 1 then parts[0] else parts[0] + [separator] + Join(parts[1..], separator)
  }

  function FormatIdentifier(components: seq<string>): string { Join(Map(Quoted, components), '.') }

  /** Collecting options: `None` as soon as one of them is. */
  ghost function FirstComponents(texts: seq<string>): Option<seq<string>> {
    if texts == [] then Some([])
    else
      match ParseIdentifier(texts[0])
      case None => None
      case Some(components) =>
        if components == [] then None
        else
          match FirstComponents(texts[1..])
          case None => None
          case Some(rest) => Some([components[0]] + rest)
  }

  ghost function ParseIdentifierList(s: string): Option<seq<string>> {
    if s == "" then Some([])
    else if !IsCommaList(s) then None
    else FirstComponents(Identifiers(s, 0))
  }

  function FormatIdentifierList(identifiers: seq<string>): string {
    Join(Map((s: string) => FormatIdentifier([s]), identifiers), ',')
  }

  // ----- quoting -----

  lemma {:induction false} UnquoteQuote(s: string)
    ensures Unquote(Quote(s)) == s
  {
    if s != "" {
      UnquoteQuote(s[1..]);
      var rest := Quote(s[1..]);
      if s[0] == '"' {
        assert Quote(s) == "\"\"" + rest && Quote(s)[2..] == rest;
      } else {
        assert Quote(s) == [s[0]] + rest && Quote(s)[1..] == rest;
      }
    }
  }

  lemma {:induction false} QuoteIsContent(s: string)
    requires s != ""
    ensures IsContent(Quote(s))
  {
    if |s| > 1 {
      QuoteIsContent(s[1..]);
    } else {
      assert Quote(s[1..]) == "";
    }
    var rest := Quote(s[1..]);
    if s[0] == '"' {
      assert Quote(s) == "\"\"" + rest && Quote(s)[2..] == rest;
    } else {
      assert Quote(s) == [s[0]] + rest && Quote(s)[1..] == rest;
    }
  }

  lemma QuotedIsQuoted(s: string)
    requires s != ""
    ensures IsQuoted(Quoted(s)) && |Quoted(s)| == |Quote(s)| + 2 && Quoted(s)[1..|Quoted(s)| - 1] == Quote(s)
  {
    QuoteIsContent(s);
    assert Quoted(s)[1..|Quoted(s)| - 1] == Quote(s);
  }

  /** Greedy matching stops at the closing quote of a formatted component. */
  lemma {:induction false} ClosesAt(s: string, i: nat, c: string, some: bool)
    requires i + |Quote(c)| < |s| && s[i..i + |Quote(c)|] == Quote(c)
    requires s[i + |Quote(c)|] == '"' && (i + |Quote(c)| + 1 < |s| ==> s[i + |Quote(c)| + 1] != '"')
    requires some || c != ""
    ensures CloseQuote(s, i, some) == Some(i + |Quote(c)| + 1)
    decreases |c|
  {
    if c != "" {
      var n, rest := |Quote(c)|, Quote(c[1..]);
      var text := s[i..i + n];
      if c[0] == '"' {
        assert Quote(c) == "\"\"" + rest && text[0] == s[i] && text[1] == s[i + 1];
        assert s[i + 2..i + 2 + |rest|] == text[2..] == rest;
        ClosesAt(s, i + 2, c[1..], true);
      } else {
        assert Quote(c) == [c[0]] + rest && text[0] == s[i];
        assert s[i + 1..i + 1 + |rest|] == text[1..] == rest;
        ClosesAt(s, i + 1, c[1..], true);
      }
    }
  }

  /** A formatted component at `i`, followed by the end or by something else than a quote. */
  ghost predicate StandsAt(s: string, i: nat, c: string) {
    && i + |Quoted(c)| <= |s| && s[i..i + |Quoted(c)|] == Quoted(c)
    && (i + |Quoted(c)| < |s| ==> s[i + |Quoted(c)|] != '"')
  }

  lemma SliceOfSlice(s: string, i: nat, n: nat, a: nat, b: nat)
    requires i + n <= |s| && a <= b <= n
    ensures s[i..i + n][a..b] == s[i + a..i + b]
  {
    var left, right := s[i..i + n][a..b], s[i + a..i + b];
    assert |left| == |right|;
    assert forall k :: 0 <= k < b - a ==> left[k] == s[i + a + k] == right[k];
  }

  lemma MatchedAt(s: string, i: nat, c: string)
    requires StandsAt(s, i, c) && c != ""
    ensures QuotedAt(s, i) == Some(i + |Quoted(c)|)
    ensures s[i] == '"' && s[i + 1..i + |Quoted(c)| - 1] == Quote(c)
  {
    hide Quote, CloseQuote;
    var text, n := s[i..i + |Quoted(c)|], |Quote(c)|;
    assert text[0] == s[i] && text[n + 1] == s[i + 1 + n];
    assert Quoted(c)[1..n + 1] == Quote(c) && Quoted(c)[n + 1] == '"';
    assert |Quoted(c)| == n + 2;
    SliceOfSlice(s, i, n + 2, 1, n + 1);
    assert s[i + 1..i + (n + 1)] == Quote(c);
    ClosesAt(s, i + 1, c, false);
  }

  // ----- joined texts -----

  ghost predicate AllNonEmpty(cs: seq<string>) { forall i :: 0 <= i < |cs| ==> cs[i] != "" }

  /** The text is the formatted components, joined, from `i` to the end. */
  ghost predicate JoinedFrom(s: string, i: nat, cs: seq<string>, separator: char) {
    i <= |s| && s[i..] == Join(Map(Quoted, cs), separator)
  }

  /** The first component of a joined text, and what follows it. */
  lemma JoinedHead(s: string, i: nat, cs: seq<string>, separator: char)
    requires JoinedFrom(s, i, cs, separator) && cs != [] && separator != '"'
    ensures StandsAt(s, i, cs[0])
    ensures
      var end := i + |Quoted(cs[0])|;
      && (|cs| == 1 ==> end == |s|)
      && (|cs| > 1 ==> end < |s| && s[end] == separator && JoinedFrom(s, end + 1, cs[1..], separator))
  {
    var first, end := Quoted(cs[0]), i + |Quoted(cs[0])|;
    var parts := Map(Quoted, cs);
    var text := s[i..];
    assert parts[0] == first && parts[1..] == Map(Quoted, cs[1..]);
    if |cs| == 1 {
      assert text == first;
    } else {
      var rest := Join(parts[1..], separator);
      assert text == first + [separator] + rest;
      assert text[|first|] == separator && s[end] == text[|first|];
      assert s[i..end] == text[..|first|] == first;
      assert s[end + 1..] == text[|first| + 1..] == rest;
    }
  }

  lemma CapturesStep(s: string, i: nat, c: string)
    requires StandsAt(s, i, c) && c != ""
    ensures Captures(s, i) == [Quote(c)] + Captures(s, i + |Quoted(c)|)
  {
    hide Quote, StandsAt;
    MatchedAt(s, i, c);
  }

  lemma CapturesSkip(s: string, i: nat)
    requires i < |s| && s[i] != '"'
    ensures Captures(s, i) == Captures(s, i + 1)
  {
  }

  lemma {:induction false} CapturesJoined(s: string, i: nat, cs: seq<string>)
    requires JoinedFrom(s, i, cs, '.') && cs != [] && AllNonEmpty(cs)
    ensures Map(Unquote, Captures(s, i)) == cs
    decreases |cs|
  {
    hide Captures, JoinedFrom, StandsAt, Quoted, Unquote, Quote;
    InBounds(s, i, cs, '.');
    JoinedHead(s, i, cs, '.');
    StandsInside(s, i, cs[0]);
    CapturesStep(s, i, cs[0]);
    var end := i + |Quoted(cs[0])|;
    UnquoteQuote(cs[0]);
    MapAppend(Unquote, [Quote(cs[0])], Captures(s, end));
    if |cs| == 1 {
      CapturesEnd(s);
      assert cs == [cs[0]];
    } else {
      CapturesSkip(s, end);
      CapturesJoined(s, end + 1, cs[1..]);
    }
  }

  lemma CapturesEnd(s: string)
    ensures Captures(s, |s|) == []
  {
  }

  lemma InBounds(s: string, i: nat, cs: seq<string>, separator: char)
    requires JoinedFrom(s, i, cs, separator)
    ensures i <= |s|
  {
  }

  lemma StandsInside(s: string, i: nat, c: string)
    requires StandsAt(s, i, c)
    ensures i + |Quoted(c)| <= |s| && s[i..i + |Quoted(c)|] == Quoted(c)
  {
  }

  lemma {:induction false} TailJoined(s: string, i: nat, cs: seq<string>)
    requires i < |s| && s[i] == '.' && JoinedFrom(s, i + 1, cs, '.') && cs != [] && AllNonEmpty(cs)
    ensures IsDottedTail(s[i..])
    decreases |cs|
  {
    hide Quote, Quoted, JoinedFrom;
    JoinedHead(s, i + 1, cs, '.');
    QuotedIsQuoted(cs[0]);
    var t, k := s[i..], 1 + |Quoted(cs[0])|;
    assert t[1..k] == s[i + 1..i + k] == Quoted(cs[0]);
    assert t[k..] == s[i + k..];
    if |cs| > 1 {
      TailJoined(s, i + k, cs[1..]);
    }
    assert IsQuotedPlus(t[1..k]) && IsDottedTail(t[k..]);
  }

  lemma FormatIsDottedQuoted(cs: seq<string>)
    requires cs != [] && AllNonEmpty(cs)
    ensures IsDottedQuoted(FormatIdentifier(cs)) && !IsDottedUnquoted(FormatIdentifier(cs))
  {
    var s := FormatIdentifier(cs);
    assert s[0..] == s;
    JoinedHead(s, 0, cs, '.');
    QuotedIsQuoted(cs[0]);
    var k := |Quoted(cs[0])|;
    assert s[..k] == s[0..k];
    if |cs| > 1 {
      TailJoined(s, k, cs[1..]);
    } else {
      assert s[k..] == "";
    }
    SplitStart(s);
    assert s[0] == s[0..k][0] == '"';
  }

  lemma SplitStart(s: string)
    requires s != "" && s[0] != '.'
    ensures Split(s)[0] != "" && Split(s)[0][0] == s[0]
  {
  }

  // ----- only non-empty components come out -----

  /** A quoted identifier at the front is found. */
  lemma {:induction false} ContentCloses(s: string, i: nat, k: nat, some: bool)
    requires i <= k < |s| && s[k] == '"'
    requires i < k ==> IsContent(s[i..k])
    requires i == k ==> some
    ensures CloseQuote(s, i, some).Some?
    decreases k - i
  {
    if i < k {
      var content := s[i..k];
      assert content[0] == s[i];
      if s[i] != '"' {
        assert content[1..] == s[i + 1..k];
        ContentCloses(s, i + 1, k, true);
      } else {
        assert content[1] == s[i + 1] && content[2..] == s[i + 2..k];
        ContentCloses(s, i + 2, k, true);
      }
    }
  }

  lemma {:induction false} CapturesNonEmpty(s: string, i: nat)
    requires i <= |s|
    ensures AllNonEmpty(Captures(s, i))
    decreases |s| - i
  {
    if i < |s| {
      var end := QuotedAt(s, i);
      if end.Some? { CapturesNonEmpty(s, end.value); } else { CapturesNonEmpty(s, i + 1); }
    }
  }

  lemma ParsedNonEmpty(s: string)
    requires ParseIdentifier(s).Some?
    ensures ParseIdentifier(s).value != [] && AllNonEmpty(ParseIdentifier(s).value)
  {
    if !IsDottedUnquoted(s) {
      CapturesNonEmpty(s, 0);
      var k :| 0 < k <= |s| && IsQuoted(s[..k]) && IsDottedTail(s[k..]);
      var q := s[..k];
      assert q[0] == s[0] && q[k - 1] == s[k - 1] && q[1..k - 1] == s[1..k - 1];
      ContentCloses(s, 1, k - 1, false);
    }
  }

  // ----- the round trips -----

  /** A dotted name parses to its components exactly when there are some and none is empty. */
  lemma IdentifierRoundTrip(components: seq<string>)
    ensures ParseIdentifier(FormatIdentifier(components)) == Some(components)
       <==> components != [] && AllNonEmpty(components)
  {
    var s := FormatIdentifier(components);
    if components != [] && AllNonEmpty(components) {
      FormatIsDottedQuoted(components);
      assert s[0..] == s;
      CapturesJoined(s, 0, components);
    }
    if ParseIdentifier(s) == Some(components) {
      ParsedNonEmpty(s);
    }
  }

  lemma IdentifiersStep(s: string, i: nat, c: string)
    requires StandsAt(s, i, c) && c != ""
    ensures i + |Quoted(c)| <= |s| && Identifiers(s, i) == [Quoted(c)] + Identifiers(s, i + |Quoted(c)|)
  {
    hide Quote;
    MatchedAt(s, i, c);
  }

  lemma IdentifiersSkip(s: string, i: nat)
    requires i < |s| && s[i] == ','
    ensures Identifiers(s, i) == Identifiers(s, i + 1)
  {
  }

  lemma IdentifiersEnd(s: string)
    ensures Identifiers(s, |s|) == []
  {
  }

  lemma {:induction false} IdentifiersJoined(s: string, i: nat, cs: seq<string>)
    requires JoinedFrom(s, i, cs, ',') && cs != [] && AllNonEmpty(cs)
    ensures i <= |s| && Identifiers(s, i) == Map(Quoted, cs)
    decreases |cs|
  {
    hide Identifiers, JoinedFrom, StandsAt, Quoted, Quote;
    InBounds(s, i, cs, ',');
    JoinedHead(s, i, cs, ',');
    IdentifiersStep(s, i, cs[0]);
    var end := i + |Quoted(cs[0])|;
    MapAppend(Quoted, [cs[0]], cs[1..]);
    assert [cs[0]] + cs[1..] == cs;
    if |cs| > 1 {
      IdentifiersSkip(s, end);
      IdentifiersJoined(s, end + 1, cs[1..]);
    } else {
      IdentifiersEnd(s);
    }
  }

  lemma {:induction false} CommaTailJoined(s: string, i: nat, cs: seq<string>)
    requires i < |s| && s[i] == ',' && JoinedFrom(s, i + 1, cs, ',') && cs != [] && AllNonEmpty(cs)
    ensures IsCommaTail(s[i..])
    decreases |cs|
  {
    hide Quote, Quoted, JoinedFrom;
    JoinedHead(s, i + 1, cs, ',');
    QuotedIsQuoted(cs[0]);
    var t, k := s[i..], 1 + |Quoted(cs[0])|;
    assert t[1..k] == s[i + 1..i + k] == Quoted(cs[0]);
    assert t[k..] == s[i + k..];
    if |cs| > 1 {
      CommaTailJoined(s, i + k, cs[1..]);
    }
    assert IsIdentifier(t[1..k]) && IsCommaTail(t[k..]);
  }

  lemma FormatListIsJoined(ids: seq<string>)
    ensures FormatIdentifierList(ids) == Join(Map(Quoted, ids), ',')
  {
    forall s: string ensures FormatIdentifier([s]) == Quoted(s) {
      assert Map(Quoted, [s]) == [Quoted(s)];
    }
    MapCongruent((s: string) => FormatIdentifier([s]), Quoted, ids);
  }

  lemma {:induction false} FirstOfQuoted(ids: seq<string>)
    requires AllNonEmpty(ids)
    ensures FirstComponents(Map(Quoted, ids)) == Some(ids)
  {
    if ids != [] {
      assert Map(Quoted, [ids[0]]) == [Quoted(ids[0])] && FormatIdentifier([ids[0]]) == Quoted(ids[0]);
      IdentifierRoundTrip([ids[0]]);
      FirstOfQuoted(ids[1..]);
      assert Map(Quoted, ids)[1..] == Map(Quoted, ids[1..]);
      assert [ids[0]] + ids[1..] == ids;
    }
  }

  lemma {:induction false} FirstNonEmpty(texts: seq<string>)
    requires FirstComponents(texts).Some?
    ensures AllNonEmpty(FirstComponents(texts).value)
  {
    if texts != [] {
      ParsedNonEmpty(texts[0]);
      FirstNonEmpty(texts[1..]);
    }
  }

  /** A comma-separated list, also an empty one, parses back exactly when no identifier is empty. */
  lemma ListRoundTrip(ids: seq<string>)
    ensures ParseIdentifierList(FormatIdentifierList(ids)) == Some(ids) <==> AllNonEmpty(ids)
  {
    var s := FormatIdentifierList(ids);
    FormatListIsJoined(ids);
    if ids != [] && AllNonEmpty(ids) {
      assert s[0..] == s;
      JoinedHead(s, 0, ids, ',');
      QuotedIsQuoted(ids[0]);
      var k := |Quoted(ids[0])|;
      assert s[..k] == s[0..k];
      if |ids| > 1 {
        CommaTailJoined(s, k, ids[1..]);
      } else {
        assert s[k..] == "";
      }
      assert IsCommaList(s);
      IdentifiersJoined(s, 0, ids);
      FirstOfQuoted(ids);
    }
    if ParseIdentifierList(s) == Some(ids) && s != "" {
      FirstNonEmpty(Identifiers(s, 0));
    } else if s == "" && ids != [] {
      NeverEmpty(ids);
    }
  }

  lemma NeverEmpty(ids: seq<string>)
    requires ids != []
    ensures Join(Map(Quoted, ids), ',') != ""
  {
  }

  // ----- names without quotes -----

  ghost predicate AllUnquoted(parts: seq<string>) { forall i :: 0 <= i < |parts| ==> IsUnquoted(parts[i]) }

  lemma {:induction false} SplitFirst(a: string, rest: string)
    requires '.' !in a
    ensures Split(a) == [a] && Split(a + "." + rest) == [a] + Split(rest)
  {
    if a == "" {
      assert a + "." + rest == "." + rest && ("." + rest)[1..] == rest;
    } else {
      SplitFirst(a[1..], rest);
      assert (a + "." + rest)[1..] == a[1..] + "." + rest;
      assert [a[0]] + a[1..] == a;
    }
  }

  lemma {:induction false} SplitJoined(parts: seq<string>)
    requires parts != [] && AllUnquoted(parts)
    ensures Split(Join(parts, '.')) == parts
  {
    assert '.' !in parts[0] by {
      assert IsUnquoted(parts[0]);
      assert forall c :: c in parts[0] ==> IsNameChar(c);
    }
    if |parts| == 1 {
      SplitFirst(parts[0], "");
      assert parts == [parts[0]];
    } else {
      SplitFirst(parts[0], Join(parts[1..], '.'));
      SplitJoined(parts[1..]);
      assert [parts[0]] + parts[1..] == parts;
    }
  }

  /** Names without quotes, joined by dots, parse to themselves in order. */
  lemma PlainIdentifierParses(parts: seq<string>)
    requires parts != [] && AllUnquoted(parts)
    ensures ParseIdentifier(Join(parts, '.')) == Some(parts)
  {
    SplitJoined(parts);
  }

  /** The name at `i` ends where the text `c` does, if no name character follows. */
  lemma {:induction false} NameEndsAt(s: string, i: nat, end: nat)
    requires i <= end <= |s| && (forall k :: i <= k < end ==> IsNameChar(s[k])) && (end < |s| ==> !IsNameChar(s[end]))
    ensures NameEnd(s, i) == end
    decreases end - i
  {
    if i < end {
      NameEndsAt(s, i + 1, end);
    }
  }

  ghost predicate PlainFrom(s: string, i: nat, parts: seq<string>) { i <= |s| && s[i..] == Join(parts, ',') }

  /** The first name of a joined list, and what follows it. */
  lemma PlainHead(s: string, i: nat, parts: seq<string>)
    requires PlainFrom(s, i, parts) && parts != [] && AllUnquoted(parts)
    ensures
      var end := i + |parts[0]|;
      && i < end <= |s| && s[i..end] == parts[0] && IsNameStart(s[i]) && NameEnd(s, i + 1) == end
      && (|parts| == 1 ==> end == |s|)
      && (|parts| > 1 ==> end < |s| && s[end] == ',' && PlainFrom(s, end + 1, parts[1..]))
  {
    var first, end, text := parts[0], i + |parts[0]|, s[i..];
    assert IsUnquoted(first);
    if |parts| == 1 {
      assert text == first;
    } else {
      var rest := Join(parts[1..], ',');
      assert text == first + [','] + rest;
      assert text[|first|] == ',' && s[end] == text[|first|];
      assert s[end + 1..] == text[|first| + 1..] == rest;
    }
    assert s[i..end] == text[..|first|] == first;
    forall k | i <= k < end ensures s[k] == first[k - i] {
      assert s[k] == s[i..end][k - i];
    }
    NameEndsAt(s, i + 1, end);
  }

  lemma PlainStep(s: string, i: nat, end: nat)
    requires i < end <= |s| && IsNameStart(s[i]) && NameEnd(s, i + 1) == end
    ensures Identifiers(s, i) == [s[i..end]] + Identifiers(s, end)
  {
  }

  lemma {:induction false} PlainIdentifiers(s: string, i: nat, parts: seq<string>)
    requires PlainFrom(s, i, parts) && parts != [] && AllUnquoted(parts)
    ensures i <= |s| && Identifiers(s, i) == parts
    decreases |parts|
  {
    hide PlainFrom, Identifiers, IsUnquoted, NameEnd, IsNameStart;
    PlainHead(s, i, parts);
    var end := i + |parts[0]|;
    PlainStep(s, i, end);
    if |parts| == 1 {
      IdentifiersEnd(s);
      assert parts == [parts[0]];
    } else {
      IdentifiersSkip(s, end);
      PlainIdentifiers(s, end + 1, parts[1..]);
      assert [parts[0]] + parts[1..] == parts;
    }
  }

  lemma {:induction false} PlainTail(s: string, i: nat, parts: seq<string>)
    requires i < |s| && s[i] == ',' && PlainFrom(s, i + 1, parts) && parts != [] && AllUnquoted(parts)
    ensures IsCommaTail(s[i..])
    decreases |parts|
  {
    hide PlainFrom, IsUnquoted, Join;
    PlainHead(s, i + 1, parts);
    var t, k := s[i..], 1 + |parts[0]|;
    assert IsUnquoted(parts[0]);
    assert t[1..k] == s[i + 1..i + k] == parts[0];
    assert t[k..] == s[i + k..];
    if |parts| > 1 {
      PlainTail(s, i + k, parts[1..]);
    }
    assert IsIdentifier(t[1..k]) && IsCommaTail(t[k..]);
  }

  lemma {:induction false} FirstOfPlain(parts: seq<string>)
    requires AllUnquoted(parts)
    ensures FirstComponents(parts) == Some(parts)
  {
    if parts != [] {
      assert Join([parts[0]], '.') == parts[0];
      PlainIdentifierParses([parts[0]]);
      FirstOfPlain(parts[1..]);
      assert [parts[0]] + parts[1..] == parts;
    }
  }

  /** Names without quotes, joined by commas, parse to the list of them. */
  lemma PlainListParses(parts: seq<string>)
    requires parts != [] && AllUnquoted(parts)
    ensures ParseIdentifierList(Join(parts, ',')) == Some(parts)
  {
    var s := Join(parts, ',');
    assert s[0..] == s;
    PlainHead(s, 0, parts);
    var k := |parts[0]|;
    assert s[..k] == s[0..k] && IsUnquoted(parts[0]);
    if |parts| > 1 {
      PlainTail(s, k, parts[1..]);
    } else {
      assert s[k..] == "";
    }
    assert IsCommaList(s);
    PlainIdentifiers(s, 0, parts);
    FirstOfPlain(parts);
  }
}
