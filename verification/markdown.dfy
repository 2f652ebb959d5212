/**
 * `extractMarkdownImageUrl`: the first Markdown image `![alt](url)` in a text
 * whose URL is http or https, as the regular expression
 * `!\[[^\]]*\]\((https?:\/\/[^\s)]+)\)` finds it.
 */
module Markdown {
  import opened Base
  import opened Strings

  /** A character of the class `[^\s)]`. */
  predicate IsUrlChar(c: char) {
    !IsJsWhitespace(c) && c != ')'
  }

  /** Where `[^\s)]+` stops. */
  predicate EndsUrl(c: char) {
    !IsUrlChar(c)
  }

  /** Where `[^\]]*` stops. */
  predicate IsCloseBracket(c: char) {
    c == ']'
  }

  /** A string the capture group can produce: an http or https scheme followed by
      at least one character, with no whitespace and no `)` anywhere. */
  predicate IsLinkUrl(u: string) {
    && ((HasPrefix(u, "https://") && |u| > 8) || (HasPrefix(u, "http://") && |u| > 7))
    && forall k | 0 <= k < |u| :: IsUrlChar(u[k])
  }

  /** `s` holds the image link `![alt](u)` starting at index `i`, its alt text
      ending at the `]` at index `j`. */
  ghost predicate LinkAt(s: string, i: nat, j: nat, u: string) {
    && i + 2 <= j
    && j + 2 + |u| < |s|
    && s[i] == '!' && s[i + 1] == '['
    && (forall k | i + 2 <= k < j :: s[k] != ']')
    && s[j] == ']' && s[j + 1] == '('
    && s[j + 2..j + 2 + |u|] == u
    && IsLinkUrl(u)
    && s[j + 2 + |u|] == ')'
  }

  /** No image link starts before index `n`. */
  ghost predicate NoLinkBefore(s: string, n: nat) {
    forall i: nat, j: nat, u: string | i < n :: !LinkAt(s, i, j, u)
  }

  /** The regular expression tried at index `i` alone. `[^\]]*` can only stop at the
      first `]`, `s?` is taken whenever `https://` follows, and `[^\s)]+` must run
      up to the first character outside its class, so there is no backtracking. */
  function MatchAt(s: string, i: nat): (r: Option<string>)
    requires i <= |s|
    ensures r.Some? ==> IsLinkUrl(r.value)
  {
    if i + 2 <= |s| && s[i] == '!' && s[i + 1] == '[' then
      var j := IndexWhere(s, i + 2, IsCloseBracket);
      if j + 1 < |s| && s[j + 1] == '(' then
        var k := j + 2;
        var start :=
          if HasPrefix(s[k..], "https://") then k + 8
          else if HasPrefix(s[k..], "http://") then k + 7
          else k;
        if start == k then None
        else
          var e := IndexWhere(s, start, EndsUrl);
          if start < e < |s| && s[e] == ')' then
            SchemeThenUrl(s, k, start, e);
            Some(s[k..e])
          else None
      else None
    else None
  }

  /** A scheme followed by a run of URL characters is a link URL. */
  lemma SchemeThenUrl(s: string, k: nat, start: nat, e: nat)
    requires k <= start < e <= |s|
    requires (HasPrefix(s[k..], "https://") && start == k + 8)
          || (HasPrefix(s[k..], "http://") && start == k + 7)
    requires forall m | start <= m < e :: IsUrlChar(s[m])
    ensures IsLinkUrl(s[k..e])
  {
    var u := s[k..e];
    assert u[..start - k] == s[k..][..start - k];
    forall m | 0 <= m < |u| ensures IsUrlChar(u[m]) {
      if m < start - k {
        assert u[m] == s[k..][..start - k][m];
      } else {
        assert u[m] == s[k + m];
      }
    }
  }

  /** Every match found at `i` is an image link starting at `i`. */
  lemma MatchAtSound(s: string, i: nat)
    requires i <= |s|
    requires MatchAt(s, i).Some?
    ensures LinkAt(s, i, IndexWhere(s, i + 2, IsCloseBracket), MatchAt(s, i).value)
  {
  }

  /** Every image link starting at `i` is what the match at `i` returns. */
  lemma MatchAtComplete(s: string, i: nat, j: nat, u: string)
    requires LinkAt(s, i, j, u)
    ensures MatchAt(s, i) == Some(u)
  {
    IndexWhereAt(s, i + 2, j, IsCloseBracket);
    var k := j + 2;
    var e := k + |u|;
    assert s[k..e] == u;
    forall m | k <= m < e ensures IsUrlChar(s[m]) {
      assert s[m] == u[m - k];
    }
    assert s[k..][..8] == u[..8];
    assert s[k..][..7] == u[..7];
    var start := if HasPrefix(u, "https://") then k + 8 else k + 7;
    if HasPrefix(u, "https://") {
      assert u[4] == u[..8][4] == 's';
      assert !HasPrefix(u, "http://") by { assert u[..7][4] == u[4]; }
    }
    IndexWhereAt(s, start, e, EndsUrl);
    MatchAtUnfold(s, i, j, start, e);
  }

  /** The match at `i` when every step of the expression succeeds. */
  lemma MatchAtUnfold(s: string, i: nat, j: nat, start: nat, e: nat)
    requires i + 2 <= |s| && s[i] == '!' && s[i + 1] == '['
    requires IndexWhere(s, i + 2, IsCloseBracket) == j && j + 1 < |s| && s[j + 1] == '('
    requires start == if HasPrefix(s[j + 2..], "https://") then j + 10
                      else if HasPrefix(s[j + 2..], "http://") then j + 9
                      else j + 2
    requires start != j + 2 && IndexWhere(s, start, EndsUrl) == e && start < e < |s| && s[e] == ')'
    ensures MatchAt(s, i) == Some(s[j + 2..e])
  {
  }

  /** The match at the least index at or after `i` where one exists. */
  function FindLink(s: string, i: nat): (r: Option<string>)
    requires i <= |s|
    ensures r.Some? ==> IsLinkUrl(r.value)
    decreases |s| - i
  {
    if i == |s| then None
    else
      match MatchAt(s, i)
      case Some(u) => Some(u)
      case None => FindLink(s, i + 1)
  }

  /** `FindLink` returns the match at the first index that has one. */
  lemma {:induction false} FindLinkIsFirst(s: string, i: nat, p: nat)
    requires i <= p < |s|
    requires MatchAt(s, p).Some?
    requires forall q | i <= q < p :: MatchAt(s, q).None?
    ensures FindLink(s, i) == MatchAt(s, p)
    decreases p - i
  {
    if i < p {
      FindLinkIsFirst(s, i + 1, p);
    }
  }

  /** `FindLink` found its result at some index, with no match before it. */
  lemma {:induction false} FindLinkWitness(s: string, i: nat) returns (p: nat)
    requires i <= |s|
    requires FindLink(s, i).Some?
    ensures i <= p < |s|
    ensures MatchAt(s, p) == FindLink(s, i)
    ensures forall q | i <= q < p :: MatchAt(s, q).None?
    decreases |s| - i
  {
    if MatchAt(s, i).Some? {
      p := i;
    } else {
      assert FindLink(s, i) == FindLink(s, i + 1);
      p := FindLinkWitness(s, i + 1);
    }
  }

  /** `FindLink` finds nothing exactly when no index at or after `i` has a match. */
  lemma {:induction false} FindLinkNone(s: string, i: nat)
    requires i <= |s|
    ensures FindLink(s, i).None? <==> forall q | i <= q < |s| :: MatchAt(s, q).None?
    decreases |s| - i
  {
    if i < |s| {
      FindLinkNone(s, i + 1);
    }
  }

  /** `extractMarkdownImageUrl`: the URL of the first image link, or `null`. */
  function ExtractMarkdownImageUrl(text: string): (r: Option<string>)
    ensures r.Some? ==> IsLinkUrl(r.value)
  {
    FindLink(text, 0)
  }

  /** No match before `n` is the same as no image link starting before `n`. */
  lemma NoMatchNoLink(s: string, n: nat)
    requires n <= |s|
    ensures (forall q | 0 <= q < n :: MatchAt(s, q).None?) <==> NoLinkBefore(s, n)
  {
    if forall q | 0 <= q < n :: MatchAt(s, q).None? {
      forall i: nat, j: nat, u: string | i < n ensures !LinkAt(s, i, j, u) {
        if LinkAt(s, i, j, u) {
          MatchAtComplete(s, i, j, u);
        }
      }
    }
    if NoLinkBefore(s, n) {
      forall q | 0 <= q < n ensures MatchAt(s, q).None? {
        if MatchAt(s, q).Some? {
          MatchAtSound(s, q);
        }
      }
    }
  }

  /** The extracted URL is `u` exactly when the first image link in the text has URL `u`. */
  lemma ExtractFindsFirstLink(text: string, u: string)
    ensures ExtractMarkdownImageUrl(text) == Some(u)
        <==> exists i: nat, j: nat :: LinkAt(text, i, j, u) && NoLinkBefore(text, i)
  {
    if ExtractMarkdownImageUrl(text) == Some(u) {
      var p := FindLinkWitness(text, 0);
      MatchAtSound(text, p);
      NoMatchNoLink(text, p);
      assert LinkAt(text, p, IndexWhere(text, p + 2, IsCloseBracket), u);
    }
    if exists i: nat, j: nat :: LinkAt(text, i, j, u) && NoLinkBefore(text, i) {
      var i: nat, j: nat :| LinkAt(text, i, j, u) && NoLinkBefore(text, i);
      MatchAtComplete(text, i, j, u);
      NoMatchNoLink(text, i);
      FindLinkIsFirst(text, 0, i);
    }
  }

  /** The result is `null` exactly when the text holds no image link at all. */
  lemma ExtractNoneIffNoLink(text: string)
    ensures ExtractMarkdownImageUrl(text).None? <==> NoLinkBefore(text, |text|)
  {
    FindLinkNone(text, 0);
    NoMatchNoLink(text, |text|);
  }

  /** A single link after text with no `!` in it is found, whatever follows it. */
  lemma ExtractLinkAfterPlainText(pre: string, alt: string, url: string, post: string)
    requires forall k | 0 <= k < |pre| :: pre[k] != '!'
    requires forall k | 0 <= k < |alt| :: alt[k] != ']'
    requires IsLinkUrl(url)
    ensures ExtractMarkdownImageUrl(pre + "![" + alt + "](" + url + ")" + post) == Some(url)
  {
    var s := pre + "![" + alt + "](" + url + ")" + post;
    var i := |pre|;
    var j := |pre| + 2 + |alt|;
    assert s[j + 2..j + 2 + |url|] == url;
    assert LinkAt(s, i, j, url);
    forall q: nat, j': nat, u': string | q < i ensures !LinkAt(s, q, j', u') {
      assert s[q] == pre[q];
    }
    ExtractFindsFirstLink(s, url);
  }
}
