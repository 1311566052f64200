/**
 * The link scan `messageContent.matchAll(/(gm)?\bhttps?:\S+/g)`.
 *
 * The optional group `(gm)` can never take part in a match: after it the
 * pattern needs a word boundary before `h`, and `m` and `h` are both word
 * characters. A match therefore starts at a word boundary with `http:` or
 * `https:` and runs over the longest following run of non-whitespace
 * (at least one character). `matchAll` resumes the search where the
 * previous match ended.
 */
module LinkScan {
  import opened Wrappers
  import opened Strings

  /** A character of `\w` (no Unicode flag on the pattern). */
  predicate IsWordChar(ch: char) {
    ('a' <= ch <= 'z') || ('A' <= ch <= 'Z') || ('0' <= ch <= '9') || ch == '_'
  }

  /** A character of `\s`: the ECMAScript WhiteSpace and LineTerminator characters. */
  predicate IsSpace(ch: char) {
    ch == '\t' || ch == '\n' || ch == '\U{B}' || ch == '\U{C}' || ch == '\r' || ch == ' '
    || ch == '\U{A0}' || ch == '\U{1680}' || ('\U{2000}' <= ch <= '\U{200A}')
    || ch == '\U{2028}' || ch == '\U{2029}' || ch == '\U{202F}' || ch == '\U{205F}'
    || ch == '\U{3000}' || ch == '\U{FEFF}'
  }

  /** `\b` before position p, given that s[p] is the word character `h`. */
  predicate BoundaryBefore(s: string, p: nat)
    requires p <= |s|
  {
    p == 0 || !IsWordChar(s[p - 1])
  }

  predicate NoSpaceIn(s: string, i: nat, e: nat)
    requires i <= e <= |s|
  {
    forall j :: i <= j < e ==> !IsSpace(s[j])
  }

  /** `s[p..e]` is a whole match of the link pattern. */
  predicate IsLinkMatch(s: string, p: nat, e: nat) {
    p < e <= |s|
    && BoundaryBefore(s, p)
    && ((IsPrefix("http:", s[p..e]) && p + 5 < e) || (IsPrefix("https:", s[p..e]) && p + 6 < e))
    && NoSpaceIn(s, p, e)
    && (e == |s| || IsSpace(s[e]))
  }

  /** The end of the greedy `\S+` run that starts at i. */
  function RunEnd(s: string, i: nat): (e: nat)
    requires i <= |s|
    decreases |s| - i
    ensures i <= e <= |s| && NoSpaceIn(s, i, e) && (e == |s| || IsSpace(s[e]))
  {
    if i == |s| || IsSpace(s[i]) then i else RunEnd(s, i + 1)
  }

  lemma RunEndUnique(s: string, i: nat, e: nat)
    requires i <= e <= |s| && NoSpaceIn(s, i, e) && (e == |s| || IsSpace(s[e]))
    ensures RunEnd(s, i) == e
  {
  }

  /**
   * "http" followed by ":" or by "s:" makes the text from p on start with the
   * scheme, and a whitespace-free run after the colon makes it whitespace-free.
   */
  lemma SchemePrefix(s: string, p: nat, colon: nat, e: nat)
    requires p + 4 <= colon < e <= |s| && s[p..p + 4] == "http" && s[colon] == ':'
    requires colon == p + 4 || (colon == p + 5 && s[p + 4] == 's')
    requires NoSpaceIn(s, colon + 1, e)
    ensures colon == p + 4 ==> IsPrefix("http:", s[p..e])
    ensures colon == p + 5 ==> IsPrefix("https:", s[p..e])
    ensures NoSpaceIn(s, p, e)
  {
    assert s[p..e][..colon + 1 - p] == s[p..colon + 1];
    assert s[p..colon + 1] == s[p..p + 4] + s[p + 4..colon + 1];
    if colon == p + 4 {
      assert s[p + 4..colon + 1] == [':'];
    } else {
      assert s[p + 4..colon + 1] == ['s', ':'];
    }
    forall j | p <= j < e
      ensures !IsSpace(s[j])
    {
      if j < p + 4 {
        assert s[j] == s[p..p + 4][j - p];
        assert s[j] in "http";
      }
    }
  }

  /** Where the match attempt at position p ends, if it succeeds. */
  function MatchAt(s: string, p: nat): (r: Option<nat>)
    requires p <= |s|
    ensures r.Some? ==> IsLinkMatch(s, p, r.value)
  {
    if p + 4 <= |s| && BoundaryBefore(s, p) && s[p..p + 4] == "http" then
      var colon := if p + 4 < |s| && s[p + 4] == 's' then p + 5 else p + 4;
      if colon + 1 < |s| && s[colon] == ':' && !IsSpace(s[colon + 1]) then
        var e := RunEnd(s, colon + 1);
        SchemePrefix(s, p, colon, e);
        Some(e)
      else None
    else None
  }

  /** Every whole match of the pattern at p is the one the attempt at p finds. */
  lemma MatchAtComplete(s: string, p: nat, e: nat)
    requires p <= |s| && IsLinkMatch(s, p, e)
    ensures MatchAt(s, p) == Some(e)
  {
    var m := s[p..e];
    assert m[..4] == "http" by {
      if IsPrefix("https:", m) {
        assert m[..4] == m[..6][..4];
      } else {
        assert m[..4] == m[..5][..4];
      }
    }
    assert s[p..p + 4] == m[..4];
    if s[p + 4] == 's' {
      assert m[4] == 's';
      PrefixChar("http:", m, 4);
      PrefixChar("https:", m, 5);
      assert s[p + 5] == m[5];
      RunEndUnique(s, p + 6, e);
    } else {
      assert m[4] != 's';
      PrefixChar("https:", m, 4);
      PrefixChar("http:", m, 4);
      assert s[p + 4] == m[4];
      RunEndUnique(s, p + 5, e);
    }
  }

  /** The matches `matchAll` yields from position p on, as (start, end) pairs. */
  function MatchesFrom(s: string, p: nat): (ms: seq<(nat, nat)>)
    requires p <= |s|
    decreases |s| - p
    ensures forall i :: 0 <= i < |ms| ==> p <= ms[i].0 && IsLinkMatch(s, ms[i].0, ms[i].1)
    ensures forall i, j :: 0 <= i < j < |ms| ==> ms[i].1 <= ms[j].0
  {
    if p == |s| then []
    else match MatchAt(s, p)
      case Some(e) => [(p, e)] + MatchesFrom(s, e)
      case None => MatchesFrom(s, p + 1)
  }

  function Matches(s: string): seq<(nat, nat)> {
    MatchesFrom(s, 0)
  }

  /** The matched texts, `match[0]` of each match in order. */
  function Links(s: string): seq<string> {
    var ms := Matches(s);
    seq(|ms|, i requires 0 <= i < |ms| => s[ms[i].0 .. ms[i].1])
  }

  /**
   * Every link is a whitespace-free `http:` or `https:` token of the text, at
   * least one character longer than its scheme, and the links do not overlap.
   */
  lemma LinksAreUrls(s: string)
    ensures |Links(s)| == |Matches(s)|
    ensures forall i :: 0 <= i < |Links(s)| ==>
      var (a, e) := Matches(s)[i];
      IsLinkMatch(s, a, e) && Links(s)[i] == s[a..e] && OccursAt(s, Links(s)[i], a)
      && (IsPrefix("http:", Links(s)[i]) || IsPrefix("https:", Links(s)[i]))
      && forall j :: 0 <= j < |Links(s)[i]| ==> !IsSpace(Links(s)[i][j])
  {
    var ms := Matches(s);
    forall i | 0 <= i < |ms|
      ensures forall j :: 0 <= j < |Links(s)[i]| ==> !IsSpace(Links(s)[i][j])
    {
      var (a, e) := ms[i];
      assert IsLinkMatch(s, a, e);
      forall j | 0 <= j < e - a ensures !IsSpace(s[a..e][j]) {
        assert s[a..e][j] == s[a + j];
      }
    }
  }

  /** The scan from p finds nothing exactly when no match attempt at or after p succeeds. */
  lemma {:induction false} NoMatchesIff(s: string, p: nat)
    requires p <= |s|
    ensures MatchesFrom(s, p) == [] <==> forall q :: p <= q < |s| ==> MatchAt(s, q).None?
    decreases |s| - p
  {
    if p < |s| && MatchAt(s, p).None? {
      NoMatchesIff(s, p + 1);
    }
  }

  /** A text in which "http" never occurs holds no links. */
  lemma NoHttpNoLinks(s: string)
    requires forall q: nat :: !OccursAt(s, "http", q)
    ensures Links(s) == []
  {
    forall q | 0 <= q < |s| ensures MatchAt(s, q).None? {
      if q + 4 <= |s| {
        assert !OccursAt(s, "http", q);
      }
    }
    NoMatchesIff(s, 0);
  }
}
