/**
 Portable knowledge identities.  The pattern of `is_valid_knowledge_uri` is a regular expression with its
 usual meaning; `fullmatch` asks that it match the whole text.
 */
module KnowledgeUri {
  import opened Wrappers
  import opened Strings

  // ---------------------------------------------------------------- regular expressions

  datatype CharClass = Alphanumeric | SegmentCharacter

  predicate IsAlphanumeric(c: char) {
    'A' <= c <= 'Z' || 'a' <= c <= 'z' || '0' <= c <= '9'
  }

  predicate InClass(c: char, k: CharClass) {
    IsAlphanumeric(c) || (k == SegmentCharacter && (c == '.' || c == '_' || c == '-'))
  }

  datatype Regex =
    | One(k: CharClass)
    | Literal(text: string)
    | Then(first: Regex, second: Regex)
    | Between(lo: nat, hi: nat, body: Regex)
    | OneOrMore(body: Regex)

  /** The texts a regular expression matches as a whole. */
  ghost predicate FullMatch(r: Regex, s: string)
    decreases r, 0
  {
    match r
    case One(k) => |s| == 1 && InClass(s[0], k)
    case Literal(text) => s == text
    case Then(first, second) => exists i :: 0 <= i <= |s| && FullMatch(first, s[..i]) && FullMatch(second, s[i..])
    case Between(lo, hi, body) => exists n: nat :: lo <= n <= hi && FullMatches(body, n, s)
    case OneOrMore(body) => exists n: nat :: n >= 1 && FullMatches(body, n, s)
  }

  /** `n` matches one after the other. */
  ghost predicate FullMatches(r: Regex, n: nat, s: string)
    decreases r, n + 1
  {
    if n == 0 then s == ""
    else exists i :: 0 <= i <= |s| && FullMatch(r, s[..i]) && FullMatches(r, n - 1, s[i..])
  }

  lemma {:induction false} ThenMatches(first: Regex, second: Regex, s: string, t: string)
    requires FullMatch(first, s) && FullMatch(second, t)
    ensures FullMatch(Then(first, second), s + t)
  {
    assert (s + t)[..|s|] == s && (s + t)[|s|..] == t;
  }

  lemma {:induction false} ThenSplits(first: Regex, second: Regex, s: string) returns (i: nat)
    requires FullMatch(Then(first, second), s)
    ensures i <= |s| && FullMatch(first, s[..i]) && FullMatch(second, s[i..])
  {
    i :| 0 <= i <= |s| && FullMatch(first, s[..i]) && FullMatch(second, s[i..]);
  }

  lemma {:induction false} MoreMatches(r: Regex, n: nat, s: string, t: string)
    requires FullMatch(r, s) && FullMatches(r, n, t)
    ensures FullMatches(r, n + 1, s + t)
  {
    assert (s + t)[..|s|] == s && (s + t)[|s|..] == t;
  }

  lemma {:induction false} MatchesSplit(r: Regex, n: nat, s: string) returns (i: nat)
    requires n > 0 && FullMatches(r, n, s)
    ensures i <= |s| && FullMatch(r, s[..i]) && FullMatches(r, n - 1, s[i..])
  {
    i :| 0 <= i <= |s| && FullMatch(r, s[..i]) && FullMatches(r, n - 1, s[i..]);
  }

  lemma {:induction false} BetweenCounts(lo: nat, hi: nat, r: Regex, s: string) returns (n: nat)
    requires FullMatch(Between(lo, hi, r), s)
    ensures lo <= n <= hi && FullMatches(r, n, s)
  {
    n :| lo <= n <= hi && FullMatches(r, n, s);
  }

  lemma {:induction false} OneOrMoreCounts(r: Regex, s: string) returns (n: nat)
    requires FullMatch(OneOrMore(r), s)
    ensures n >= 1 && FullMatches(r, n, s)
  {
    n :| n >= 1 && FullMatches(r, n, s);
  }

  const SCHEME := "knowledge://"

  function SegmentPattern(most: nat): Regex
    requires most > 0
  {
    Then(One(Alphanumeric), Between(0, most - 1, One(SegmentCharacter)))
  }

  function KnowledgeUriPattern(): Regex {
    Then(Literal(SCHEME), Then(SegmentPattern(96), OneOrMore(Then(Literal("/"), SegmentPattern(160)))))
  }

  ghost predicate IsValidKnowledgeUri(s: string) {
    FullMatch(KnowledgeUriPattern(), s)
  }

  // ---------------------------------------------------------------- segments

  predicate LegalSegment(s: string, most: nat) {
    1 <= |s| <= most && InClass(s[0], Alphanumeric) && forall i :: 1 <= i < |s| ==> InClass(s[i], SegmentCharacter)
  }

  /** Two segments or more; the first has at most 96 characters and the others at most 160. */
  predicate LegalSegments(segments: seq<string>) {
    && |segments| >= 2
    && LegalSegment(segments[0], 96)
    && forall i :: 1 <= i < |segments| ==> LegalSegment(segments[i], 160)
  }

  function Printed(segments: seq<string>): string {
    SCHEME + Join(segments)
  }

  function Parsed(s: string): Option<seq<string>> {
    if SCHEME <= s && LegalSegments(Split(s[|SCHEME|..])) then Some(Split(s[|SCHEME|..])) else None
  }

  /** A legal segment by character codes: letters, digits, and after the first also "-", "." and "_". */
  lemma {:induction false} LegalSegmentExact(s: string, most: nat)
    ensures LegalSegment(s, most) <==>
      && 0 < |s| <= most
      && forall i :: 0 <= i < |s| ==>
           || 48 <= s[i] as int <= 57 || 65 <= s[i] as int <= 90 || 97 <= s[i] as int <= 122
           || (i > 0 && (s[i] as int == 45 || s[i] as int == 46 || s[i] as int == 95))
  {
    forall c: char ensures IsAlphanumeric(c) <==>
      48 <= c as int <= 57 || 65 <= c as int <= 90 || 97 <= c as int <= 122 {}
  }

  // ---------------------------------------------------------------- the pattern, part by part

  ghost predicate AllInClass(s: string, k: CharClass) {
    forall i :: 0 <= i < |s| ==> InClass(s[i], k)
  }

  lemma {:induction false} CharactersMatch(k: CharClass, n: nat, s: string)
    ensures FullMatches(One(k), n, s) <==> |s| == n && AllInClass(s, k)
  {
    if n > 0 {
      if FullMatches(One(k), n, s) {
        var i := MatchesSplit(One(k), n, s);
        CharactersMatch(k, n - 1, s[i..]);
        assert s[..i][0] == s[0];
        forall j | 0 <= j < |s| ensures InClass(s[j], k) {
          if j > 0 { assert s[j] == s[1..][j - 1]; }
        }
      }
      if |s| == n && AllInClass(s, k) {
        CharactersMatch(k, n - 1, s[1..]);
        assert s[..1][0] == s[0];
        MoreMatches(One(k), n - 1, s[..1], s[1..]);
        assert s[..1] + s[1..] == s;
      }
    }
  }

  lemma {:induction false} CharactersBetween(k: CharClass, most: nat, s: string)
    ensures FullMatch(Between(0, most, One(k)), s) <==> |s| <= most && AllInClass(s, k)
  {
    CharactersMatch(k, |s|, s);
    if FullMatch(Between(0, most, One(k)), s) {
      var n := BetweenCounts(0, most, One(k), s);
      CharactersMatch(k, n, s);
    }
  }

  lemma {:induction false} SegmentMatches(most: nat, s: string)
    requires most > 0
    ensures FullMatch(SegmentPattern(most), s) <==> LegalSegment(s, most)
  {
    var head, tail := One(Alphanumeric), Between(0, most - 1, One(SegmentCharacter));
    if LegalSegment(s, most) {
      CharactersBetween(SegmentCharacter, most - 1, s[1..]);
      ThenMatches(head, tail, s[..1], s[1..]);
      assert s[..1] + s[1..] == s;
    }
    if FullMatch(SegmentPattern(most), s) {
      var i := ThenSplits(head, tail, s);
      assert s[..i][0] == s[0];
      CharactersBetween(SegmentCharacter, most - 1, s[i..]);
      forall j | 1 <= j < |s| ensures InClass(s[j], SegmentCharacter) { assert s[j] == s[1..][j - 1]; }
    }
  }

  predicate SlashedSegment(s: string) {
    s != "" && s[0] == '/' && LegalSegment(s[1..], 160)
  }

  function SlashedPattern(): Regex {
    Then(Literal("/"), SegmentPattern(160))
  }

  lemma {:induction false} SlashedSegmentMatches(s: string)
    ensures FullMatch(SlashedPattern(), s) <==> SlashedSegment(s)
  {
    if FullMatch(SlashedPattern(), s) {
      var i := ThenSplits(Literal("/"), SegmentPattern(160), s);
      assert i == 1 && s[..1][0] == s[0];
      SegmentMatches(160, s[1..]);
    }
    if SlashedSegment(s) {
      SegmentMatches(160, s[1..]);
      ThenMatches(Literal("/"), SegmentPattern(160), "/", s[1..]);
      assert "/" + s[1..] == s;
    }
  }

  /** Every segment behind a slash. */
  function Slashed(segments: seq<string>): string {
    if segments == [] then "" else "/" + segments[0] + Slashed(segments[1..])
  }

  ghost predicate AllLegal(segments: seq<string>) {
    forall i :: 0 <= i < |segments| ==> LegalSegment(segments[i], 160)
  }

  ghost predicate MeansSlashedSegment(r: Regex) {
    forall s :: FullMatch(r, s) <==> SlashedSegment(s)
  }

  lemma {:induction false} SlashedMatches(r: Regex, segments: seq<string>)
    requires forall i :: 0 <= i < |segments| ==> FullMatch(r, "/" + segments[i])
    ensures FullMatches(r, |segments|, Slashed(segments))
  {
    if segments != [] {
      var rest := segments[1..];
      assert forall i :: 0 <= i < |rest| ==> rest[i] == segments[i + 1];
      SlashedMatches(r, rest);
      MoreMatches(r, |rest|, "/" + segments[0], Slashed(rest));
    }
  }

  lemma {:induction false} SlashedCons(s: string, i: nat, rest: seq<string>)
    requires i <= |s| && SlashedSegment(s[..i])
    requires AllLegal(rest) && s[i..] == Slashed(rest)
    ensures AllLegal([s[..i][1..]] + rest) && s == Slashed([s[..i][1..]] + rest)
  {
    assert s[..i] == "/" + s[..i][1..];
    assert s == s[..i] + s[i..];
  }

  lemma {:induction false} MatchesAreSlashed(r: Regex, n: nat, s: string) returns (segments: seq<string>)
    requires MeansSlashedSegment(r)
    requires FullMatches(r, n, s)
    ensures |segments| == n && AllLegal(segments) && s == Slashed(segments)
  {
    if n == 0 {
      segments := [];
    } else {
      var i := MatchesSplit(r, n, s);
      var rest := MatchesAreSlashed(r, n - 1, s[i..]);
      SlashedCons(s, i, rest);
      segments := [s[..i][1..]] + rest;
    }
  }

  lemma {:induction false} JoinIsSlashed(first: string, rest: seq<string>)
    ensures Join([first] + rest) == first + Slashed(rest)
    decreases |rest|
  {
    if rest == [] {
      assert [first] + rest == [first];
    } else {
      JoinIsSlashed(rest[0], rest[1..]);
      assert [rest[0]] + rest[1..] == rest;
      assert ([first] + rest)[1..] == rest;
      assert first + "/" + (rest[0] + Slashed(rest[1..])) == first + ("/" + rest[0] + Slashed(rest[1..]));
    }
  }

  // ---------------------------------------------------------------- the whole

  function PathPattern(): Regex {
    Then(SegmentPattern(96), OneOrMore(SlashedPattern()))
  }

  lemma {:induction false} SlashedListMatches(rest: seq<string>)
    requires |rest| >= 1 && AllLegal(rest)
    ensures FullMatch(OneOrMore(SlashedPattern()), Slashed(rest))
  {
    forall i | 0 <= i < |rest| ensures FullMatch(SlashedPattern(), "/" + rest[i]) {
      assert ("/" + rest[i])[1..] == rest[i];
      SlashedSegmentMatches("/" + rest[i]);
    }
    SlashedMatches(SlashedPattern(), rest);
  }

  lemma {:induction false} SlashedListSplits(s: string) returns (rest: seq<string>)
    requires FullMatch(OneOrMore(SlashedPattern()), s)
    ensures |rest| >= 1 && AllLegal(rest) && s == Slashed(rest)
  {
    forall t { SlashedSegmentMatches(t); }
    var n := OneOrMoreCounts(SlashedPattern(), s);
    rest := MatchesAreSlashed(SlashedPattern(), n, s);
  }

  lemma {:induction false} PathMatches(segments: seq<string>)
    requires LegalSegments(segments)
    ensures FullMatch(PathPattern(), Join(segments))
  {
    var first, rest := segments[0], segments[1..];
    assert segments == [first] + rest;
    JoinIsSlashed(first, rest);
    SegmentMatches(96, first);
    SlashedListMatches(rest);
    ThenMatches(SegmentPattern(96), OneOrMore(SlashedPattern()), first, Slashed(rest));
  }

  lemma {:induction false} PathIsJoined(body: string) returns (segments: seq<string>)
    requires FullMatch(PathPattern(), body)
    ensures LegalSegments(segments) && body == Join(segments)
  {
    var j := ThenSplits(SegmentPattern(96), OneOrMore(SlashedPattern()), body);
    SegmentMatches(96, body[..j]);
    var rest := SlashedListSplits(body[j..]);
    segments := [body[..j]] + rest;
    JoinIsSlashed(body[..j], rest);
    assert body == body[..j] + body[j..];
  }

  lemma {:induction false} PrintedIsValid(segments: seq<string>)
    requires LegalSegments(segments)
    ensures IsValidKnowledgeUri(Printed(segments))
  {
    PathMatches(segments);
    ThenMatches(Literal(SCHEME), PathPattern(), SCHEME, Join(segments));
  }

  lemma {:induction false} ValidIsPrinted(s: string) returns (segments: seq<string>)
    requires IsValidKnowledgeUri(s)
    ensures LegalSegments(segments) && s == Printed(segments)
  {
    var i := ThenSplits(Literal(SCHEME), PathPattern(), s);
    segments := PathIsJoined(s[i..]);
    assert s == s[..i] + s[i..];
  }

  lemma {:induction false} LegalHasNoSlash(s: string, most: nat)
    requires LegalSegment(s, most)
    ensures '/' !in s
  {
  }

  /** Printing legal segments and parsing them gives them back: no other segments print the same. */
  lemma {:induction false} ParsedOfPrinted(segments: seq<string>)
    requires |segments| >= 1 && forall t :: t in segments ==> '/' !in t
    ensures Parsed(Printed(segments)) == if LegalSegments(segments) then Some(segments) else None
  {
    SplitOfJoin(segments);
    assert Printed(segments)[|SCHEME|..] == Join(segments);
  }

  /** The pattern, the parser and the printed legal segments agree on every text, and printing what was
      parsed gives the text back. */
  lemma {:induction false} ValidExactly(s: string)
    ensures IsValidKnowledgeUri(s) <==> Parsed(s).Some?
    ensures IsValidKnowledgeUri(s) <==> exists segments :: LegalSegments(segments) && s == Printed(segments)
    ensures Parsed(s).Some? ==> LegalSegments(Parsed(s).value) && Printed(Parsed(s).value) == s
  {
    if Parsed(s).Some? {
      JoinOfSplit(s[|SCHEME|..]);
      assert s == SCHEME + s[|SCHEME|..];
      PrintedIsValid(Parsed(s).value);
    }
    if IsValidKnowledgeUri(s) {
      var segments := ValidIsPrinted(s);
      forall t | t in segments ensures '/' !in t {
        var i :| 0 <= i < |segments| && segments[i] == t;
        LegalHasNoSlash(t, if i == 0 then 96 else 160);
      }
      ParsedOfPrinted(segments);
    }
    forall segments | LegalSegments(segments) && s == Printed(segments) ensures IsValidKnowledgeUri(s) {
      PrintedIsValid(segments);
    }
  }

  /** The decomposition is unique. */
  lemma {:induction false} SegmentsUnique(segments: seq<string>, others: seq<string>)
    requires LegalSegments(segments) && LegalSegments(others)
    requires Printed(segments) == Printed(others)
    ensures segments == others
  {
    forall t | t in segments ensures '/' !in t {
      var i :| 0 <= i < |segments| && segments[i] == t;
      LegalHasNoSlash(t, if i == 0 then 96 else 160);
    }
    forall t | t in others ensures '/' !in t {
      var i :| 0 <= i < |others| && others[i] == t;
      LegalHasNoSlash(t, if i == 0 then 96 else 160);
    }
    ParsedOfPrinted(segments);
    ParsedOfPrinted(others);
  }
}
