/** Domain extraction from one line of a plain-text rule list. The script
    runs `re.search` with the pattern

      -  \s*  ['"]?  (\+\.)?  ([a-zA-Z0-9.-]+)  ['"]?

    on the stripped line and keeps group 2. The pattern is written here as a
    grammar (`IsParse`, the set of all matches at a given '-') and as the
    deterministic scan that Python's backtracking ends up performing
    (`MatchAt`); `ParseForced` shows that every part before group 2 is forced,
    so the two agree. The trailing `['"]?` can always match the empty string,
    so it never decides whether a match exists. */
module RuleLine {
  import opened Wrappers
  import opened PyStr

  predicate IsQuote(c: char) {
    c == '\'' || c == '"'
  }

  /** The character class `[a-zA-Z0-9.-]`. */
  predicate IsDomainChar(c: char) {
    ('a' <= c <= 'z') || ('A' <= c <= 'Z') || ('0' <= c <= '9') || c == '.' || c == '-'
  }

  /** Where the greedy `\s*` that starts at `j` stops. */
  function SkipSpace(s: string, j: nat): (k: nat)
    requires j <= |s|
    ensures j <= k <= |s|
    ensures forall m :: j <= m < k ==> IsSpace(s[m])
    ensures k == |s| || !IsSpace(s[k])
    decreases |s| - j
  {
    if j < |s| && IsSpace(s[j]) then SkipSpace(s, j + 1) else j
  }

  /** Where the longest run of domain characters that starts at `j` stops. */
  function RunEnd(s: string, j: nat): (k: nat)
    requires j <= |s|
    ensures j <= k <= |s|
    ensures forall m :: j <= m < k ==> IsDomainChar(s[m])
    ensures k == |s| || !IsDomainChar(s[k])
    decreases |s| - j
  {
    if j < |s| && IsDomainChar(s[j]) then RunEnd(s, j + 1) else j
  }

  /** The boundaries of one match that begins with the '-' at `dash`:
      `\s*` covers [dash + 1, ws), the optional quote [ws, quote), the optional
      `+.` [quote, wild) and group 2 [wild, end). */
  datatype Parse = Parse(ws: nat, quote: nat, wild: nat, end: nat)

  /** `p` is a way for the pattern to match `s` starting at `dash`. */
  ghost predicate IsParse(s: string, dash: nat, p: Parse) {
    && dash < |s| && s[dash] == '-'
    && dash + 1 <= p.ws <= p.quote <= p.wild < p.end <= |s|
    && (forall m :: dash + 1 <= m < p.ws ==> IsSpace(s[m]))
    && (p.quote == p.ws || (p.quote == p.ws + 1 && IsQuote(s[p.ws])))
    && (p.wild == p.quote || (p.wild == p.quote + 2 && s[p.quote] == '+' && s[p.quote + 1] == '.'))
    && (forall m :: p.wild <= m < p.end ==> IsDomainChar(s[m]))
  }

  /** The match Python reports among those at `dash`: the greedy `+` of group 2
      is tried longest first, so group 2 cannot be extended. */
  ghost predicate IsReportedParse(s: string, dash: nat, p: Parse) {
    IsParse(s, dash, p) && (p.end == |s| || !IsDomainChar(s[p.end]))
  }

  /** The pattern matches somewhere starting at `dash`. */
  ghost predicate MatchesAt(s: string, dash: nat) {
    exists p :: IsParse(s, dash, p)
  }

  /** The scan: skip whitespace, take a quote if there is one, take `+.` if it
      is there, then the longest run of domain characters. */
  function GreedyParse(s: string, dash: nat): Parse
    requires dash < |s|
  {
    var ws := SkipSpace(s, dash + 1);
    var quote := if ws < |s| && IsQuote(s[ws]) then ws + 1 else ws;
    var wild := if quote + 1 < |s| && s[quote] == '+' && s[quote + 1] == '.' then quote + 2 else quote;
    Parse(ws, quote, wild, RunEnd(s, wild))
  }

  /** Group 2 of the match that starts with the '-' at `dash`, if any. */
  function MatchAt(s: string, dash: nat): (r: Option<string>)
    requires dash < |s| && s[dash] == '-'
    ensures r.Some? ==> r.value != [] && forall k :: 0 <= k < |r.value| ==> IsDomainChar(r.value[k])
  {
    var p := GreedyParse(s, dash);
    if p.wild < p.end then
      assert forall k :: 0 <= k < p.end - p.wild ==> s[p.wild..p.end][k] == s[p.wild + k];
      Some(s[p.wild..p.end])
    else None
  }

  /** Every match at `dash` agrees with the scan on everything before group 2,
      and its group 2 is no longer than the scan's: whitespace, quotes and '+'
      cannot start group 2, so backtracking has nothing else to try. */
  lemma ParseForced(s: string, dash: nat, p: Parse)
    requires IsParse(s, dash, p)
    ensures var g := GreedyParse(s, dash);
      p.ws == g.ws && p.quote == g.quote && p.wild == g.wild && p.end <= g.end
  {
    var g := GreedyParse(s, dash);
    // The character right after the whitespace is a quote, a '+' or a domain
    // character, none of which is whitespace.
    assert !IsSpace(s[p.ws]);
    assert p.ws == g.ws;
    if IsQuote(s[p.ws]) {
      assert p.quote == p.ws + 1;
    }
    assert p.quote == g.quote;
    if p.quote + 1 < |s| && s[p.quote] == '+' && s[p.quote + 1] == '.' {
      assert !IsDomainChar(s[p.quote]);
      assert p.wild == p.quote + 2;
    }
    assert p.wild == g.wild;
  }

  /** The scan finds a match at `dash` exactly when the pattern matches there,
      and what it returns is group 2 of the match Python reports. */
  lemma MatchAtCorrect(s: string, dash: nat)
    requires dash < |s| && s[dash] == '-'
    ensures MatchAt(s, dash).Some? <==> MatchesAt(s, dash)
    ensures forall p :: IsReportedParse(s, dash, p) ==> MatchAt(s, dash) == Some(s[p.wild..p.end])
    ensures MatchAt(s, dash).Some? ==>
      var g := GreedyParse(s, dash); IsReportedParse(s, dash, g) && MatchAt(s, dash).value == s[g.wild..g.end]
  {
    var g := GreedyParse(s, dash);
    if g.wild < g.end {
      assert IsParse(s, dash, g);
    }
    forall p | IsParse(s, dash, p) ensures g.wild < g.end && (IsReportedParse(s, dash, p) ==> p == g) {
      ParseForced(s, dash, p);
    }
  }

  /** `re.search` from index `i` on: the match at the leftmost '-' (at or after
      `i`) where the pattern matches. */
  function SearchFrom(s: string, i: nat): (r: Option<string>)
    ensures r.Some? ==> r.value != [] && forall k :: 0 <= k < |r.value| ==> IsDomainChar(r.value[k])
    decreases |s| - i
  {
    if i >= |s| then None
    else if s[i] == '-' && MatchAt(s, i).Some? then MatchAt(s, i)
    else SearchFrom(s, i + 1)
  }

  /** What `re.search` reports: group 2 of the reported match at the leftmost
      position where the pattern matches. */
  ghost predicate IsLeftmostMatch(s: string, from: nat, i: nat, d: string) {
    && from <= i < |s|
    && (forall j :: from <= j < i ==> !MatchesAt(s, j))
    && exists p :: IsReportedParse(s, i, p) && d == s[p.wild..p.end]
  }

  /** The search finds nothing exactly when the pattern matches nowhere at or
      after `from`. */
  lemma {:induction false} SearchFromNone(s: string, from: nat)
    ensures SearchFrom(s, from) == None <==> forall j :: from <= j ==> !MatchesAt(s, j)
    decreases |s| - from
  {
    if from < |s| {
      SearchFromNone(s, from + 1);
      assert (s[from] == '-' && MatchAt(s, from).Some?) <==> MatchesAt(s, from) by {
        if s[from] == '-' { MatchAtCorrect(s, from); }
      }
    }
  }

  /** What the search returns is group 2 of the leftmost match. */
  lemma {:induction false} SearchFromSound(s: string, from: nat)
    ensures SearchFrom(s, from).Some? ==> IsLeftmostMatch(s, from, FoundAt(s, from), SearchFrom(s, from).value)
    decreases |s| - from
  {
    if from < |s| {
      if s[from] == '-' {
        MatchAtCorrect(s, from);
      }
      if !(s[from] == '-' && MatchAt(s, from).Some?) {
        SearchFromSound(s, from + 1);
        assert !MatchesAt(s, from);
      }
    }
  }

  /** The position where the search stops: the leftmost '-' at or after `from`
      where the pattern matches (or `|s|`). */
  function FoundAt(s: string, from: nat): (i: nat)
    ensures from <= i || i == |s|
    decreases |s| - from
  {
    if from >= |s| then |s|
    else if s[from] == '-' && MatchAt(s, from).Some? then from
    else FoundAt(s, from + 1)
  }

  /** Group 2 of the leftmost match is what the search returns. */
  lemma {:induction false} SearchFromComplete(s: string, from: nat, i: nat, d: string)
    requires IsLeftmostMatch(s, from, i, d)
    ensures SearchFrom(s, from) == Some(d)
    decreases |s| - from
  {
    if s[from] == '-' {
      MatchAtCorrect(s, from);
    }
    if i == from {
      MatchAtCorrect(s, from);
    } else {
      assert !MatchesAt(s, from);
      assert IsLeftmostMatch(s, from + 1, i, d);
      SearchFromComplete(s, from + 1, i, d);
    }
  }

  /** The domain `extract_domains` takes from one line of a text list: nothing
      for a blank line or one whose stripped form starts with '#', otherwise
      group 2 of the leftmost match in the stripped line. */
  function LineDomain(line: string): (r: Option<string>)
    ensures r.Some? ==> r.value != [] && forall k :: 0 <= k < |r.value| ==> IsDomainChar(r.value[k])
  {
    var t := Strip(line);
    if t == [] || StartsWith(t, "#") then None
    else SearchFrom(t, 0)
  }

  /** A line is used only if its stripped form is non-empty and is not a
      comment, and then it yields the leftmost match's group 2. */
  lemma LineDomainCorrect(line: string)
    ensures Strip(line) == [] || StartsWith(Strip(line), "#") ==> LineDomain(line) == None
    ensures Strip(line) != [] && !StartsWith(Strip(line), "#") ==>
      && (LineDomain(line) == None <==> forall j :: 0 <= j ==> !MatchesAt(Strip(line), j))
      && forall d :: LineDomain(line) == Some(d) <==> exists i :: IsLeftmostMatch(Strip(line), 0, i, d)
  {
    var t := Strip(line);
    SearchFromNone(t, 0);
    SearchFromSound(t, 0);
    forall d | exists i :: IsLeftmostMatch(t, 0, i, d) ensures SearchFrom(t, 0) == Some(d) {
      var i :| IsLeftmostMatch(t, 0, i, d);
      SearchFromComplete(t, 0, i, d);
    }
  }
}
