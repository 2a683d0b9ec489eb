/**
  Phone-number detection of the result screen.

  The result screen matches the extracted text against the global pattern
  `/[+\d(][\d\s().-]{6,}/g`, trims each match, removes at most one trailing
  `.`, `,`, whitespace or `-`, and keeps the matches that hold between 7 and
  15 digits. Each kept number is offered as a `tel:` link with its
  whitespace removed.

  The pattern is one start character followed by a greedy run over a single
  character class, so it never backtracks: a match begins at `p` exactly
  when `s[p]` is a start character followed by at least six body characters,
  and it then runs to the end of the body run. `Scan` is that left-to-right,
  non-overlapping search; `LeftmostGreedy` is the declarative description of
  the matches a global regular-expression search returns, and the two are
  proved to coincide.
*/
module PhoneDetection {
  import opened Wrappers

  /** `\d`: an ASCII decimal digit. */
  predicate IsDigit(c: char) {
    '0' <= c <= '9'
  }

  /** `\s`, which is also the set `String.prototype.trim` strips: the
      ECMAScript WhiteSpace and LineTerminator code points. */
  predicate IsSpace(c: char) {
    || c == '\t' || c == '\n' || c == '\U{000B}' || c == '\U{000C}' || c == '\r'
    || c == ' ' || c == '\U{00A0}' || c == '\U{1680}' || ('\U{2000}' <= c <= '\U{200A}')
    || c == '\U{2028}' || c == '\U{2029}' || c == '\U{202F}' || c == '\U{205F}'
    || c == '\U{3000}' || c == '\U{FEFF}'
  }

  /** `[+\d(]`: the character a match begins with. */
  predicate IsMatchStart(c: char) {
    c == '+' || c == '(' || IsDigit(c)
  }

  /** `[\d\s().-]`: the characters of the repeated part of a match. */
  predicate IsMatchBody(c: char) {
    IsDigit(c) || IsSpace(c) || c == '(' || c == ')' || c == '.' || c == '-'
  }

  /** `[.,\s-]`: the one trailing character the clean-up may remove. */
  predicate IsTrailingStrip(c: char) {
    c == '.' || c == ',' || c == '-' || IsSpace(c)
  }

  /** The `{6,}` bound of the pattern. */
  const MinBodyLength: nat := 6
  /** Bounds of the digit-count filter. */
  const MinDigits: nat := 7
  const MaxDigits: nat := 15

  /** The half-open range `[start, end)` of the text a match covers. */
  datatype Span = Span(start: nat, end: nat)

  predicate AllSpace(s: string) {
    forall k :: 0 <= k < |s| ==> IsSpace(s[k])
  }

  // ---------------------------------------------------------------------
  // The pattern search
  // ---------------------------------------------------------------------

  /** Length of the longest run of body characters beginning at `i`. */
  function BodyRun(s: string, i: nat): (n: nat)
    requires i <= |s|
    ensures i + n <= |s|
    ensures forall k :: i <= k < i + n ==> IsMatchBody(s[k])
    ensures i + n == |s| || !IsMatchBody(s[i + n])
    decreases |s| - i
  {
    if i == |s| || !IsMatchBody(s[i]) then 0 else 1 + BodyRun(s, i + 1)
  }

  /** A match of the pattern can begin at `p`: a start character followed by
      at least six body characters. */
  predicate CanStartAt(s: string, p: nat) {
    && p + MinBodyLength < |s|
    && IsMatchStart(s[p])
    && forall k :: p < k <= p + MinBodyLength ==> IsMatchBody(s[k])
  }

  /** `sp` is a match of the pattern that the greedy quantifier cannot
      extend any further. */
  predicate IsGreedyMatch(s: string, sp: Span) {
    && sp.start + MinBodyLength < sp.end <= |s|
    && IsMatchStart(s[sp.start])
    && (forall k :: sp.start < k < sp.end ==> IsMatchBody(s[k]))
    && (sp.end == |s| || !IsMatchBody(s[sp.end]))
  }

  /** No match of the pattern can begin anywhere in `[lo, hi)`. */
  predicate NoMatchStartsIn(s: string, lo: nat, hi: nat) {
    forall p: nat :: lo <= p < hi ==> !CanStartAt(s, p)
  }

  /** What a global search started at `from` returns, described without
      saying how it is found: the first span is the leftmost place a match
      can begin, taken as far as it goes; the rest is the same description
      of the text after it; and when no span is left, no match can begin in
      the remaining text. */
  predicate LeftmostGreedy(s: string, from: nat, spans: seq<Span>)
    decreases |spans|
  {
    && from <= |s|
    && if spans == [] then NoMatchStartsIn(s, from, |s|)
       else
         && from <= spans[0].start
         && NoMatchStartsIn(s, from, spans[0].start)
         && IsGreedyMatch(s, spans[0])
         && LeftmostGreedy(s, spans[0].end, spans[1..])
  }

  /** Where the match that begins at `i` ends, if one begins there. */
  function MatchEnd(s: string, i: nat): (e: Option<nat>)
    requires i < |s|
    ensures e.Some? <==> CanStartAt(s, i)
    ensures e.Some? ==> IsGreedyMatch(s, Span(i, e.value))
  {
    var n := BodyRun(s, i + 1);
    if IsMatchStart(s[i]) && n >= MinBodyLength then Some(i + 1 + n) else None
  }

  /** The left-to-right, non-overlapping search for matches from `from` on:
      the model of `text.match(regex)`. */
  function Scan(s: string, from: nat): (spans: seq<Span>)
    requires from <= |s|
    ensures forall k :: 0 <= k < |spans| ==> from <= spans[k].start < spans[k].end <= |s|
    decreases |s| - from
  {
    if from == |s| then []
    else
      match MatchEnd(s, from)
      case Some(e) => [Span(from, e)] + Scan(s, e)
      case None => Scan(s, from + 1)
  }

  /** The spans `Scan` returns meet the description of a global search. */
  lemma {:induction false} ScanMeetsDescription(s: string, from: nat)
    requires from <= |s|
    ensures LeftmostGreedy(s, from, Scan(s, from))
    decreases |s| - from
  {
    if from < |s| {
      match MatchEnd(s, from)
      case Some(e) =>
        ScanMeetsDescription(s, e);
        assert Scan(s, from)[1..] == Scan(s, e);
      case None =>
        ScanMeetsDescription(s, from + 1);
    }
  }

  /** Every span `Scan` returns is a match the greedy quantifier cannot
      extend. */
  lemma {:induction false} ScanFindsGreedyMatches(s: string, from: nat)
    requires from <= |s|
    ensures forall k :: 0 <= k < |Scan(s, from)| ==> IsGreedyMatch(s, Scan(s, from)[k])
    decreases |s| - from
  {
    if from < |s| {
      match MatchEnd(s, from)
      case Some(e) =>
        ScanFindsGreedyMatches(s, e);
        var spans := Scan(s, from);
        forall k | 0 <= k < |spans|
          ensures IsGreedyMatch(s, spans[k])
        {
          if k > 0 {
            assert spans[k] == Scan(s, e)[k - 1];
          }
        }
      case None =>
        ScanFindsGreedyMatches(s, from + 1);
    }
  }

  /** A greedy match is a place where a match can begin. */
  lemma GreedyMatchCanStart(s: string, sp: Span)
    requires IsGreedyMatch(s, sp)
    ensures CanStartAt(s, sp.start)
  {
  }

  /** The first span of a non-empty description is a match that begins in
      the searched text. */
  lemma FirstSpanFacts(s: string, from: nat, spans: seq<Span>)
    requires LeftmostGreedy(s, from, spans)
    ensures spans != [] ==> from <= spans[0].start < |s| && CanStartAt(s, spans[0].start)
  {
  }

  /** The description of a global search admits one list of spans only. */
  lemma {:induction false} LeftmostGreedyUnique(s: string, from: nat, a: seq<Span>, b: seq<Span>)
    requires LeftmostGreedy(s, from, a) && LeftmostGreedy(s, from, b)
    ensures a == b
    decreases |a|
  {
    FirstSpanFacts(s, from, a);
    FirstSpanFacts(s, from, b);
    if a != [] && b != [] {
      assert a[0].start == b[0].start;
      assert a[0] == b[0];
      LeftmostGreedyUnique(s, a[0].end, a[1..], b[1..]);
    }
  }

  /** `Scan` returns exactly the spans a global search is described to
      return: every list meeting the description is `Scan`'s, and `Scan`'s
      meets it. */
  lemma ScanIsTheGlobalSearch(s: string, from: nat, spans: seq<Span>)
    requires from <= |s|
    ensures LeftmostGreedy(s, from, spans) <==> spans == Scan(s, from)
  {
    ScanMeetsDescription(s, from);
    if LeftmostGreedy(s, from, spans) {
      LeftmostGreedyUnique(s, from, spans, Scan(s, from));
    }
  }

  /** The spans of a global search follow the text order and never overlap. */
  lemma {:induction false} LeftmostGreedyInTextOrder(s: string, from: nat, spans: seq<Span>)
    requires LeftmostGreedy(s, from, spans)
    ensures forall j, k :: 0 <= j < k < |spans| ==> spans[j].end <= spans[k].start
    ensures forall k :: 0 <= k < |spans| ==> from <= spans[k].start
    decreases |spans|
  {
    if spans != [] {
      var rest := spans[1..];
      LeftmostGreedyInTextOrder(s, spans[0].end, rest);
      forall j, k | 0 <= j < k < |spans|
        ensures spans[j].end <= spans[k].start
      {
        if j > 0 {
          assert spans[j] == rest[j - 1] && spans[k] == rest[k - 1];
        } else {
          assert spans[k] == rest[k - 1];
        }
      }
    }
  }

  // ---------------------------------------------------------------------
  // Clean-up of a match and the digit filter
  // ---------------------------------------------------------------------

  /** Whitespace removed from the end. */
  function TrimEnd(m: string): (t: string)
    ensures |t| <= |m|
    decreases |m|
  {
    if m != [] && IsSpace(m[|m| - 1]) then TrimEnd(m[..|m| - 1]) else m
  }

  /** `TrimEnd` keeps a prefix, removes only whitespace, and leaves no
      whitespace at the end. */
  lemma {:induction false} TrimEndFacts(m: string)
    ensures var t := TrimEnd(m); t <= m && AllSpace(m[|t|..]) && (t == [] || !IsSpace(t[|t| - 1]))
    decreases |m|
  {
    if m != [] && IsSpace(m[|m| - 1]) {
      var p := m[..|m| - 1];
      TrimEndFacts(p);
      var t := TrimEnd(p);
      assert m[|t|..] == p[|t|..] + [m[|m| - 1]];
    }
  }

  /** Whitespace removed from the start. */
  function TrimStart(m: string): (t: string)
    ensures |t| <= |m|
    decreases |m|
  {
    if m != [] && IsSpace(m[0]) then TrimStart(m[1..]) else m
  }

  /** `TrimStart` of a string that does not begin with whitespace is the
      string itself. */
  lemma TrimStartKeeps(m: string)
    requires m == [] || !IsSpace(m[0])
    ensures TrimStart(m) == m
  {
  }

  /** `TrimStart` of whitespace only is empty. */
  lemma {:induction false} TrimStartAllSpace(m: string)
    requires AllSpace(m)
    ensures TrimStart(m) == []
    decreases |m|
  {
    if m != [] {
      TrimStartAllSpace(m[1..]);
    }
  }

  /** `String.prototype.trim`. */
  function Trim(m: string): (t: string)
    ensures |t| <= |m|
  {
    TrimStart(TrimEnd(m))
  }

  /** For a string that does not begin with whitespace, `trim` removes
      exactly the trailing whitespace; and it empties a string of whitespace
      only. */
  lemma TrimFacts(m: string)
    ensures AllSpace(m) ==> Trim(m) == []
    ensures m != [] && !IsSpace(m[0]) ==>
              var t := Trim(m); t != [] && t <= m && AllSpace(m[|t|..]) && !IsSpace(t[|t| - 1])
  {
    TrimEndFacts(m);
    var e := TrimEnd(m);
    if AllSpace(m) {
      assert AllSpace(e);
      TrimStartAllSpace(e);
    }
    if m != [] && !IsSpace(m[0]) {
      assert e[0] == m[0];
      TrimStartKeeps(e);
    }
  }

  /** What may follow the cleaned number inside its match: either only
      whitespace, the number then ending in none of `.`, `,`, `-` or
      whitespace; or one `.`, `,` or `-` followed by whitespace only. */
  predicate IsCleanedTail(r: string, tail: string) {
    || (AllSpace(tail) && (r == [] || !IsTrailingStrip(r[|r| - 1])))
    || (tail != [] && (tail[0] == '.' || tail[0] == ',' || tail[0] == '-') && AllSpace(tail[1..]))
  }

  /** `match.trim().replace(/[.,\s-]$/, '')`: trim, then drop one trailing
      `.`, `,`, whitespace or `-` if there is one. */
  function Clean(m: string): (r: string)
    ensures |r| <= |m|
  {
    var t := Trim(m);
    if t != [] && IsTrailingStrip(t[|t| - 1]) then t[..|t| - 1] else t
  }

  /** The clean-up of a match keeps a non-empty prefix of it, and what it
      removes is trailing whitespace with at most one `.`, `,` or `-`
      before it. */
  lemma CleanMatch(m: string)
    requires m != [] && IsMatchStart(m[0])
    ensures var r := Clean(m); r != [] && r[0] == m[0] && r <= m && IsCleanedTail(r, m[|r|..])
  {
    assert !IsSpace(m[0]) && !IsTrailingStrip(m[0]);
    TrimFacts(m);
    var t := Trim(m);
    assert t != [] && t <= m && AllSpace(m[|t|..]);
    assert t[0] == m[0];
    if IsTrailingStrip(t[|t| - 1]) {
      assert |t| >= 2;
      var r := t[..|t| - 1];
      assert Clean(m) == r;
      var tail := m[|r|..];
      assert tail == [t[|t| - 1]] + m[|t|..];
      assert tail[1..] == m[|t|..];
      assert tail[0] == '.' || tail[0] == ',' || tail[0] == '-';
    } else {
      assert Clean(m) == t;
    }
  }

  /** `(match.match(/\d/g) || []).length`. */
  function DigitCount(m: string): (n: nat)
    ensures n <= |m|
  {
    if m == [] then 0
    else
      (if IsDigit(m[0]) then 1 else 0) + DigitCount(m[1..])
  }

  lemma {:induction false} DigitCountAppend(a: string, b: string)
    ensures DigitCount(a + b) == DigitCount(a) + DigitCount(b)
    decreases |a|
  {
    if a == [] {
      assert a + b == b;
    } else {
      assert (a + b)[1..] == a[1..] + b;
      DigitCountAppend(a[1..], b);
    }
  }

  lemma {:induction false} NoDigitsCountZero(m: string)
    requires forall k :: 0 <= k < |m| ==> !IsDigit(m[k])
    ensures DigitCount(m) == 0
    decreases |m|
  {
    if m != [] {
      NoDigitsCountZero(m[1..]);
    }
  }

  lemma PrefixSplit(r: string, m: string)
    requires r <= m
    ensures m == r + m[|r|..]
  {
  }

  lemma CleanedTailHasNoDigits(r: string, tail: string)
    requires IsCleanedTail(r, tail)
    ensures DigitCount(tail) == 0
  {
    forall k | 0 <= k < |tail|
      ensures !IsDigit(tail[k])
    {
      if k > 0 && !AllSpace(tail) {
        assert tail[k] == tail[1..][k - 1];
      }
    }
    NoDigitsCountZero(tail);
  }

  /** The clean-up of a match removes no digit, so the filter sees the digit
      count of the raw match. */
  lemma CleanKeepsDigits(m: string)
    requires m != [] && IsMatchStart(m[0])
    ensures DigitCount(Clean(m)) == DigitCount(m)
  {
    var r := Clean(m);
    CleanMatch(m);
    var tail := m[|r|..];
    PrefixSplit(r, m);
    DigitCountAppend(r, tail);
    CleanedTailHasNoDigits(r, tail);
  }

  /** The digit filter: between 7 and 15 digits inclusive. */
  predicate IsPhoneLength(n: string) {
    MinDigits <= DigitCount(n) <= MaxDigits
  }

  predicate SpansWithin(s: string, spans: seq<Span>) {
    forall k :: 0 <= k < |spans| ==> spans[k].start <= spans[k].end <= |s|
  }

  lemma SpansWithinAppend(s: string, a: seq<Span>, b: seq<Span>)
    requires SpansWithin(s, a) && SpansWithin(s, b)
    ensures SpansWithin(s, a + b)
  {
  }

  /** The text of each match, in order: the array `text.match` returns. */
  function MatchTexts(s: string, spans: seq<Span>): (ms: seq<string>)
    requires SpansWithin(s, spans)
    ensures |ms| == |spans|
    ensures forall k :: 0 <= k < |spans| ==> ms[k] == s[spans[k].start..spans[k].end]
    decreases |spans|
  {
    if spans == [] then [] else [s[spans[0].start..spans[0].end]] + MatchTexts(s, spans[1..])
  }

  lemma MatchTextsAppend(s: string, a: seq<Span>, b: seq<Span>)
    requires SpansWithin(s, a) && SpansWithin(s, b)
    ensures SpansWithin(s, a + b)
    ensures MatchTexts(s, a + b) == MatchTexts(s, a) + MatchTexts(s, b)
  {
  }

  /** The clean-up applied to every match, in order. */
  function CleanAll(ms: seq<string>): (cs: seq<string>)
    ensures |cs| == |ms|
    decreases |ms|
  {
    if ms == [] then [] else [Clean(ms[0])] + CleanAll(ms[1..])
  }

  /** Element `k` of the cleaned list is the cleaned element `k`. */
  lemma {:induction false} CleanAllAt(ms: seq<string>, k: nat)
    requires k < |ms|
    ensures CleanAll(ms)[k] == Clean(ms[k])
    decreases k
  {
    if k > 0 {
      CleanAllAt(ms[1..], k - 1);
    }
  }

  lemma {:induction false} CleanAllAppend(a: seq<string>, b: seq<string>)
    ensures CleanAll(a + b) == CleanAll(a) + CleanAll(b)
    decreases |a|
  {
    if a == [] {
      assert a + b == b;
    } else {
      assert (a + b)[1..] == a[1..] + b;
      CleanAllAppend(a[1..], b);
    }
  }

  /** The digit filter applied to a list, keeping the order. */
  function KeepPhoneLength(ms: seq<string>): (ns: seq<string>)
    ensures |ns| <= |ms|
    ensures forall k :: 0 <= k < |ns| ==> IsPhoneLength(ns[k])
    decreases |ms|
  {
    if ms == [] then []
    else (if IsPhoneLength(ms[0]) then [ms[0]] else []) + KeepPhoneLength(ms[1..])
  }

  /** The filter keeps exactly the strings of the list that pass it. */
  lemma {:induction false} KeepPhoneLengthMembers(ms: seq<string>, n: string)
    ensures n in KeepPhoneLength(ms) <==> n in ms && IsPhoneLength(n)
    decreases |ms|
  {
    if ms != [] {
      KeepPhoneLengthMembers(ms[1..], n);
      assert ms == [ms[0]] + ms[1..];
    }
  }

  /** Filtering distributes over concatenation: the numbers of earlier
      matches come before those of later matches. */
  lemma {:induction false} KeepPhoneLengthAppend(a: seq<string>, b: seq<string>)
    ensures KeepPhoneLength(a + b) == KeepPhoneLength(a) + KeepPhoneLength(b)
    decreases |a|
  {
    if a == [] {
      assert a + b == b;
    } else {
      assert (a + b)[1..] == a[1..] + b;
      KeepPhoneLengthAppend(a[1..], b);
    }
  }

  /** The numbers the matches `spans` yield: their texts, cleaned, then
      filtered on their digit count. */
  function PhonesOf(s: string, spans: seq<Span>): seq<string>
    requires SpansWithin(s, spans)
  {
    KeepPhoneLength(CleanAll(MatchTexts(s, spans)))
  }

  lemma PhonesOfAppend(s: string, a: seq<Span>, b: seq<Span>)
    requires SpansWithin(s, a) && SpansWithin(s, b)
    ensures SpansWithin(s, a + b)
    ensures PhonesOf(s, a + b) == PhonesOf(s, a) + PhonesOf(s, b)
  {
    MatchTextsAppend(s, a, b);
    CleanAllAppend(MatchTexts(s, a), MatchTexts(s, b));
    KeepPhoneLengthAppend(CleanAll(MatchTexts(s, a)), CleanAll(MatchTexts(s, b)));
  }

  /** The number one match yields, if any. */
  lemma PhonesOfOne(s: string, sp: Span)
    requires sp.start <= sp.end <= |s|
    ensures var n := Clean(s[sp.start..sp.end]);
            PhonesOf(s, [sp]) == if IsPhoneLength(n) then [n] else []
  {
  }

  /** The `phoneNumbers` memo of the result screen. */
  function DetectedNumbers(text: string): (nums: seq<string>)
    ensures |nums| <= |Scan(text, 0)|
    ensures forall k :: 0 <= k < |nums| ==> MinDigits <= DigitCount(nums[k]) <= MaxDigits
  {
    PhonesOf(text, Scan(text, 0))
  }

  /** The clean-up of a match of a search keeps its digit count. */
  lemma ScanCleanKeepsDigits(text: string, from: nat, k: nat)
    requires from <= |text| && k < |Scan(text, from)|
    ensures var sp := Scan(text, from)[k];
            DigitCount(Clean(text[sp.start..sp.end])) == DigitCount(text[sp.start..sp.end])
  {
    var sp := Scan(text, from)[k];
    ScanFindsGreedyMatches(text, from);
    var m := text[sp.start..sp.end];
    assert m[0] == text[sp.start];
    CleanKeepsDigits(m);
  }

  /** `n` is the cleaned text of the match `sp`, and the match holds 7 to
      15 digits. */
  predicate RawYields(s: string, sp: Span, n: string)
    requires sp.start <= sp.end <= |s|
  {
    n == Clean(s[sp.start..sp.end]) && IsPhoneLength(s[sp.start..sp.end])
  }

  /** Every detected number comes from one of the search's matches. */
  lemma DetectedNumberSource(text: string, n: string) returns (k: nat)
    requires n in DetectedNumbers(text)
    ensures k < |Scan(text, 0)| && RawYields(text, Scan(text, 0)[k], n)
  {
    var spans := Scan(text, 0);
    var ms := MatchTexts(text, spans);
    var cs := CleanAll(ms);
    KeepPhoneLengthMembers(cs, n);
    k :| 0 <= k < |cs| && cs[k] == n;
    CleanAllAt(ms, k);
    ScanCleanKeepsDigits(text, 0, k);
  }

  /** Every match of the search whose raw text passes the filter is
      detected. */
  lemma MatchIsDetected(text: string, k: nat, n: string)
    requires k < |Scan(text, 0)| && RawYields(text, Scan(text, 0)[k], n)
    ensures n in DetectedNumbers(text)
  {
    var spans := Scan(text, 0);
    var ms := MatchTexts(text, spans);
    var cs := CleanAll(ms);
    CleanAllAt(ms, k);
    ScanCleanKeepsDigits(text, 0, k);
    assert cs[k] == n;
    KeepPhoneLengthMembers(cs, n);
  }

  /** Every detected number is the cleaned text of one of the leftmost,
      greedy, non-overlapping matches whose raw text holds 7 to 15 digits,
      and every such match yields a detected number. */
  lemma DetectedNumbersAreFilteredMatches(text: string, n: string)
    ensures var spans := Scan(text, 0);
            n in DetectedNumbers(text) <==> exists k :: 0 <= k < |spans| && RawYields(text, spans[k], n)
  {
    var spans := Scan(text, 0);
    if n in DetectedNumbers(text) {
      var k := DetectedNumberSource(text, n);
    }
    if exists k :: 0 <= k < |spans| && RawYields(text, spans[k], n) {
      var k :| 0 <= k < |spans| && RawYields(text, spans[k], n);
      MatchIsDetected(text, k, n);
    }
  }

  /** One step of the search where a match begins. */
  lemma ScanAtMatch(s: string, i: nat, j: nat)
    requires i < |s| && IsMatchStart(s[i])
    requires j == i + 1 + BodyRun(s, i + 1) && BodyRun(s, i + 1) >= MinBodyLength
    ensures Scan(s, i) == [Span(i, j)] + Scan(s, j)
  {
    var e := MatchEnd(s, i);
    assert e == Some(j) by {
      assert IsMatchStart(s[i]) && BodyRun(s, i + 1) >= MinBodyLength;
    }
  }

  /** One step of the search where no match begins. */
  lemma ScanPastNonMatch(s: string, i: nat)
    requires i < |s|
    requires !IsMatchStart(s[i]) || BodyRun(s, i + 1) < MinBodyLength
    ensures Scan(s, i) == Scan(s, i + 1)
  {
  }

  /** The end of the body run that begins at `j`, found by walking it. */
  method EndOfBodyRun(text: string, j0: nat) returns (j: nat)
    requires j0 <= |text|
    ensures j == j0 + BodyRun(text, j0)
  {
    j := j0;
    while j < |text| && IsMatchBody(text[j])
      invariant j0 <= j <= |text|
      invariant BodyRun(text, j0) == (j - j0) + BodyRun(text, j)
      decreases |text| - j
    {
      j := j + 1;
    }
  }

  /** What the search contributes at a match `[i, j)`, followed by the rest
      of the search. */
  lemma PhonesAtMatch(text: string, i: nat, j: nat)
    requires i < |text| && IsMatchStart(text[i])
    requires j == i + 1 + BodyRun(text, i + 1) && BodyRun(text, i + 1) >= MinBodyLength
    ensures var n := Clean(text[i..j]);
            PhonesOf(text, Scan(text, i)) == (if IsPhoneLength(n) then [n] else []) + PhonesOf(text, Scan(text, j))
  {
    ScanAtMatch(text, i, j);
    PhonesOfAppend(text, [Span(i, j)], Scan(text, j));
    PhonesOfOne(text, Span(i, j));
  }

  /** One step of the hand-written search at position `i`: either the match
      that begins there and the number it yields, or no match. */
  method StepAt(text: string, i: nat) returns (found: seq<string>, next: nat)
    requires i < |text|
    ensures i < next <= |text|
    ensures PhonesOf(text, Scan(text, i)) == found + PhonesOf(text, Scan(text, next))
  {
    if IsMatchStart(text[i]) {
      var j := EndOfBodyRun(text, i + 1);
      if j - (i + 1) >= MinBodyLength {
        PhonesAtMatch(text, i, j);
        var n := Clean(text[i..j]);
        found := if IsPhoneLength(n) then [n] else [];
        next := j;
        return;
      }
    }
    ScanPastNonMatch(text, i);
    found := [];
    next := i + 1;
  }

  /** The hand-written form of the search: one left-to-right pass over the
      text. */
  method FindPhoneNumbers(text: string) returns (nums: seq<string>)
    ensures nums == DetectedNumbers(text)
  {
    nums := [];
    var i := 0;
    while i < |text|
      invariant 0 <= i <= |text|
      invariant nums + PhonesOf(text, Scan(text, i)) == DetectedNumbers(text)
      decreases |text| - i
    {
      var found, next := StepAt(text, i);
      assert nums + found + PhonesOf(text, Scan(text, next)) == nums + (found + PhonesOf(text, Scan(text, next)));
      nums := nums + found;
      i := next;
    }
  }

  // ---------------------------------------------------------------------
  // The `tel:` link
  // ---------------------------------------------------------------------

  /** `num.replace(/\s/g, '')`. */
  function StripSpaces(s: string): (r: string)
    ensures forall k :: 0 <= k < |r| ==> !IsSpace(r[k])
    decreases |s|
  {
    if s == [] then []
    else
      (if IsSpace(s[0]) then [] else [s[0]]) + StripSpaces(s[1..])
  }

  /** Removing whitespace keeps every other character, as often as it
      occurs. */
  lemma {:induction false} StripSpacesKeepsOthers(s: string, c: char)
    requires !IsSpace(c)
    ensures multiset(StripSpaces(s))[c] == multiset(s)[c]
    decreases |s|
  {
    if s != [] {
      assert s == [s[0]] + s[1..];
      StripSpacesKeepsOthers(s[1..], c);
    }
  }

  /** Removing whitespace keeps the order of everything else. */
  lemma {:induction false} StripSpacesAppend(a: string, b: string)
    ensures StripSpaces(a + b) == StripSpaces(a) + StripSpaces(b)
    decreases |a|
  {
    if a == [] {
      assert a + b == b;
    } else {
      assert (a + b)[1..] == a[1..] + b;
      StripSpacesAppend(a[1..], b);
    }
  }

  /** A number without whitespace is dialled as displayed. */
  lemma {:induction false} StripSpacesKeepsSpaceless(s: string)
    ensures (forall k :: 0 <= k < |s| ==> !IsSpace(s[k])) ==> StripSpaces(s) == s
    decreases |s|
  {
    if s != [] {
      StripSpacesKeepsSpaceless(s[1..]);
    }
  }

  /** A character that is not whitespace stays between what is left of the
      text before it and what is left of the text after it. */
  lemma StripSpacesAround(s: string, p: nat)
    requires p < |s| && !IsSpace(s[p])
    ensures StripSpaces(s) == StripSpaces(s[..p]) + [s[p]] + StripSpaces(s[p + 1..])
  {
    assert s == s[..p] + s[p..];
    StripSpacesAppend(s[..p], s[p..]);
    assert s[p..][1..] == s[p + 1..];
  }

  /** Removing whitespace from a text is removing it from any two halves
      of it, and every other character keeps its place between them. */
  lemma StripSpacesKeepsOrder(s: string)
    ensures forall j :: 0 <= j <= |s| ==> StripSpaces(s) == StripSpaces(s[..j]) + StripSpaces(s[j..])
    ensures forall p :: 0 <= p < |s| && !IsSpace(s[p]) ==>
              StripSpaces(s) == StripSpaces(s[..p]) + [s[p]] + StripSpaces(s[p + 1..])
  {
    forall j | 0 <= j <= |s|
      ensures StripSpaces(s) == StripSpaces(s[..j]) + StripSpaces(s[j..])
    {
      assert s == s[..j] + s[j..];
      StripSpacesAppend(s[..j], s[j..]);
    }
    forall p | 0 <= p < |s| && !IsSpace(s[p])
      ensures StripSpaces(s) == StripSpaces(s[..p]) + [s[p]] + StripSpaces(s[p + 1..])
    {
      StripSpacesAround(s, p);
    }
  }

  /** The `href` of the "Call" link of a detected number. */
  function TelHref(num: string): (href: string)
    ensures |href| >= 4 && href[..4] == "tel:"
    ensures forall k :: 4 <= k < |href| ==> !IsSpace(href[k])
    ensures forall c :: !IsSpace(c) ==> multiset(href[4..])[c] == multiset(num)[c]
    ensures forall j :: 0 <= j <= |num| ==> href[4..] == StripSpaces(num[..j]) + StripSpaces(num[j..])
    ensures forall p :: 0 <= p < |num| && !IsSpace(num[p]) ==>
              href[4..] == StripSpaces(num[..p]) + [num[p]] + StripSpaces(num[p + 1..])
    ensures (forall k :: 0 <= k < |num| ==> !IsSpace(num[k])) ==> href[4..] == num
  {
    var target := StripSpaces(num);
    forall c | !IsSpace(c)
      ensures multiset(target)[c] == multiset(num)[c]
    {
      StripSpacesKeepsOthers(num, c);
    }
    StripSpacesKeepsOrder(num);
    assert ("tel:" + target)[4..] == target;
    StripSpacesKeepsSpaceless(num);
    "tel:" + target
  }
}
