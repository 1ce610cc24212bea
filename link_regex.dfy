/**
 * The regular expression `linkRegex` of src/summarizePr.ts, which recognises
 * a markdown link to a file blob on github.com:
 *
 *     \[ .*? \]\(https://github\.com/ .*? [a-zA-Z0-f]{40} / (.*?) \)
 *
 * JavaScript's `String.prototype.match` with a non-global expression returns
 * the leftmost match and, at that position, the first one the backtracking
 * matcher reaches: every lazy `.*?` takes as few characters as it can.
 * `LinkAt` says declaratively which substrings the expression matches;
 * `FindLink` is the matcher; its contract and `FindLinkComplete`,
 * `FindLinkLeftmost` and the `FindLinkLazy` lemmas prove that it returns exactly the
 * match JavaScript returns.
 */
module LinkRegex {
  import opened Text

  /** `.` without the `s` flag matches anything except these four. */
  predicate IsLineTerminator(c: char) {
    c == '\n' || c == '\r' || c == '\U{2028}' || c == '\U{2029}'
  }

  /** The class `[a-zA-Z0-f]`. Its last range runs from `0` to `f` in code
      point order, so it also holds `:;<=>?@[\]^_` and the backquote. */
  predicate InClass(c: char) {
    ('a' <= c <= 'z') || ('A' <= c <= 'Z') || ('0' <= c <= 'f')
  }

  /** The literal part `\]\(https:\/\/github\.com\/`. */
  const Host := "](https://github.com/"
  const HostLength := 21

  /** The host literal occurs at index `i`, written out character by
      character (`HostAtLiteral` relates it to `Host`). */
  predicate HostAt(s: string, i: nat) {
    i + HostLength <= |s| &&
    s[i] == ']' &&
    s[i + 1] == '(' &&
    s[i + 2] == 'h' &&
    s[i + 3] == 't' &&
    s[i + 4] == 't' &&
    s[i + 5] == 'p' &&
    s[i + 6] == 's' &&
    s[i + 7] == ':' &&
    s[i + 8] == '/' &&
    s[i + 9] == '/' &&
    s[i + 10] == 'g' &&
    s[i + 11] == 'i' &&
    s[i + 12] == 't' &&
    s[i + 13] == 'h' &&
    s[i + 14] == 'u' &&
    s[i + 15] == 'b' &&
    s[i + 16] == '.' &&
    s[i + 17] == 'c' &&
    s[i + 18] == 'o' &&
    s[i + 19] == 'm' &&
    s[i + 20] == '/'
  }

  /** `HostAt` is an occurrence of `Host`. */
  lemma HostAtLiteral(s: string, i: nat)
    ensures HostAt(s, i) <==> i + HostLength <= |s| && s[i..i + HostLength] == Host
  {
    if i + HostLength <= |s| && s[i..i + HostLength] == Host {
      forall k | 0 <= k < HostLength ensures s[i + k] == Host[k] {
        assert s[i..i + HostLength][k] == s[i + k];
      }
    }
    if HostAt(s, i) {
      var t := s[i..i + HostLength];
      forall k | 0 <= k < HostLength ensures t[k] == Host[k] {
        assert t[k] == s[i + k];
      }
      assert t == Host;
    }
  }

  /** No line terminator in `s[a..b]`. */
  predicate NoLineBreak(s: string, a: nat, b: nat) {
    b <= |s| && forall k {:trigger IsLineTerminator(s[k])} :: a <= k < b ==> !IsLineTerminator(s[k])
  }

  /** `[a-zA-Z0-f]{40}\/` matches at index `j`. */
  predicate ShaDirAt(s: string, j: nat) {
    j + 41 <= |s| && (forall k {:trigger InClass(s[k])} :: j <= k < j + 40 ==> InClass(s[k])) && s[j + 40] == '/'
  }

  /** The expression matches `s[p..e + 1]`: `[` at `p`, the first lazy group
      is `s[p + 1..i]`, the host literal starts at `i`, the second lazy group
      is `s[i + HostLength..j]`, the forty class characters and the slash start at
      `j`, the capture group is `s[j + 41..e]` and `)` is at `e`. */
  predicate LinkAt(s: string, p: nat, i: nat, j: nat, e: nat) {
    p < i && i + HostLength <= j && j + 41 <= e < |s| &&
    s[p] == '[' && NoLineBreak(s, p + 1, i) &&
    HostAt(s, i) && NoLineBreak(s, i + HostLength, j) &&
    ShaDirAt(s, j) && NoLineBreak(s, j + 41, e) && s[e] == ')'
  }

  ghost predicate HasLink(s: string) {
    exists p: nat, i: nat, j: nat, e: nat :: LinkAt(s, p, i, j, e)
  }

  /** Positions of a match: where it starts, where the host literal starts,
      where the forty class characters start, and the closing parenthesis. */
  datatype Match = Match(start: nat, host: nat, sha: nat, close: nat)

  predicate IsMatchIn(s: string, m: Match) {
    LinkAt(s, m.start, m.host, m.sha, m.close)
  }

  /** `match[0]`, the whole matched text. */
  function Whole(s: string, m: Match): string
    requires IsMatchIn(s, m)
  {
    s[m.start..m.close + 1]
  }

  /** `match[1]`, the capture group. */
  function Capture(s: string, m: Match): string
    requires IsMatchIn(s, m)
  {
    s[m.sha + 41..m.close]
  }

  /** `(.*?)\)` from index `i`: the first `)` reached without crossing a
      line terminator. */
  function CloseFrom(s: string, i: nat): (r: Option<nat>)
    ensures r.Some? ==> i <= r.value < |s| && s[r.value] == ')'
    decreases |s| - i
  {
    if i >= |s| then None
    else if s[i] == ')' then Some(i)
    else if IsLineTerminator(s[i]) then None
    else CloseFrom(s, i + 1)
  }

  /** `.*?[a-zA-Z0-f]{40}\/(.*?)\)` from index `j`: the lazy prefix is tried
      shortest first. Returns where the forty characters start and where the
      closing parenthesis is. */
  function ShaFrom(s: string, j: nat): (r: Option<(nat, nat)>)
    ensures r.Some? ==> j <= r.value.0 && r.value.0 + 41 <= r.value.1 < |s|
    decreases |s| - j
  {
    if ShaDirAt(s, j) && CloseFrom(s, j + 41).Some? then Some((j, CloseFrom(s, j + 41).value))
    else if j < |s| && !IsLineTerminator(s[j]) then ShaFrom(s, j + 1)
    else None
  }

  /** `.*?\]\(https:\/\/github\.com\/ …` from index `i`, lazy prefix first.
      Returns where the host literal starts, then as `ShaFrom`. */
  function HostFrom(s: string, i: nat): (r: Option<(nat, nat, nat)>)
    ensures r.Some? ==>
      i <= r.value.0 && r.value.0 + HostLength <= r.value.1 && r.value.1 + 41 <= r.value.2 < |s|
    decreases |s| - i
  {
    if HostAt(s, i) && ShaFrom(s, i + HostLength).Some? then
      var t := ShaFrom(s, i + HostLength).value;
      Some((i, t.0, t.1))
    else if i < |s| && !IsLineTerminator(s[i]) then HostFrom(s, i + 1)
    else None
  }

  /** The leftmost match starting at or after `p`. */
  function FirstFrom(s: string, p: nat): (r: Option<Match>)
    ensures r.Some? ==> p <= r.value.start
    decreases |s| - p
  {
    if p >= |s| then None
    else if s[p] == '[' && HostFrom(s, p + 1).Some? then
      var h := HostFrom(s, p + 1).value;
      Some(Match(p, h.0, h.1, h.2))
    else FirstFrom(s, p + 1)
  }

  /** `s.match(linkRegex)`: what it returns is a match of the expression. */
  function FindLink(s: string): (r: Option<Match>)
    ensures r.Some? ==> IsMatchIn(s, r.value)
  {
    var r := FirstFrom(s, 0);
    if r.Some? then
      FirstFromAt(s, 0, r.value.start);
      MatchSound(s, r.value.start, HostFrom(s, r.value.start + 1).value);
      r
    else r
  }

  lemma {:induction false} CloseFromSound(s: string, i: nat, c: nat)
    requires CloseFrom(s, i) == Some(c)
    ensures NoLineBreak(s, i, c)
    decreases |s| - i
  {
    if s[i] != ')' {
      CloseFromSound(s, i + 1, c);
    }
  }

  lemma {:induction false} ShaFromSound(s: string, j: nat, t: (nat, nat))
    requires ShaFrom(s, j) == Some(t)
    ensures NoLineBreak(s, j, t.0) && ShaDirAt(s, t.0) && CloseFrom(s, t.0 + 41) == Some(t.1)
    decreases |s| - j
  {
    if !(ShaDirAt(s, j) && CloseFrom(s, j + 41).Some?) {
      ShaFromSound(s, j + 1, t);
    }
  }

  lemma {:induction false} HostFromSound(s: string, i: nat, h: (nat, nat, nat))
    requires HostFrom(s, i) == Some(h)
    ensures NoLineBreak(s, i, h.0) && HostAt(s, h.0) && ShaFrom(s, h.0 + HostLength) == Some((h.1, h.2))
    decreases |s| - i
  {
    if !(HostAt(s, i) && ShaFrom(s, i + HostLength).Some?) {
      HostFromSound(s, i + 1, h);
    }
  }

  /** A match `FirstFrom` returns starts at a `[` and is completed by `HostFrom`. */
  lemma {:induction false} FirstFromAt(s: string, p0: nat, q: nat)
    requires FirstFrom(s, p0).Some? && FirstFrom(s, p0).value.start == q
    ensures q < |s| && s[q] == '[' && HostFrom(s, q + 1).Some?
    ensures var h := HostFrom(s, q + 1).value;
      FirstFrom(s, p0).value == Match(q, h.0, h.1, h.2)
    decreases |s| - p0
  {
    if !(s[p0] == '[' && HostFrom(s, p0 + 1).Some?) {
      FirstFromAt(s, p0 + 1, q);
    }
  }

  /** What follows the lazy prefix `ShaFrom` skips: the forty class
      characters, the slash and a capture up to the first `)`. */
  lemma ShaFromTail(s: string, j: nat, sha: nat, close: nat)
    requires ShaFrom(s, j) == Some((sha, close))
    ensures NoLineBreak(s, j, sha) && ShaDirAt(s, sha)
    ensures sha + 41 <= close < |s| && NoLineBreak(s, sha + 41, close) && s[close] == ')'
  {
    ShaFromSound(s, j, (sha, close));
    CloseFromSound(s, sha + 41, close);
  }

  /** A `[` followed by what `HostFrom` finds is a match of the expression. */
  lemma MatchSound(s: string, q: nat, h: (nat, nat, nat))
    requires q < |s| && s[q] == '[' && HostFrom(s, q + 1) == Some(h)
    ensures IsMatchIn(s, Match(q, h.0, h.1, h.2))
  {
    HostFromSound(s, q + 1, h);
    ShaFromTail(s, h.0 + HostLength, h.1, h.2);
  }

  lemma {:induction false} CloseFromComplete(s: string, i: nat, e: nat)
    requires i <= e < |s| && s[e] == ')' && NoLineBreak(s, i, e)
    ensures CloseFrom(s, i).Some? && CloseFrom(s, i).value <= e
    decreases e - i
  {
    if s[i] != ')' {
      CloseFromComplete(s, i + 1, e);
    }
  }

  /** The `)` after the sha that `HostFrom` finds is the one `CloseFrom`
      finds there. */
  lemma HostFromClose(s: string, i: nat, h: (nat, nat, nat))
    requires HostFrom(s, i) == Some(h)
    ensures CloseFrom(s, h.1 + 41) == Some(h.2)
  {
    HostFromSound(s, i, h);
    ShaFromSound(s, h.0 + HostLength, (h.1, h.2));
  }

  /** The `)` that `CloseFrom` finds is the first reachable one. */
  lemma CloseFromLeast(s: string, i: nat, c: nat, e: nat)
    requires CloseFrom(s, i) == Some(c)
    requires i <= e < |s| && s[e] == ')' && NoLineBreak(s, i, e)
    ensures c <= e
  {
    CloseFromComplete(s, i, e);
  }

  lemma {:induction false} ShaFromComplete(s: string, j0: nat, j: nat, e: nat)
    requires j0 <= j && NoLineBreak(s, j0, j) && ShaDirAt(s, j)
    requires j + 41 <= e < |s| && s[e] == ')' && NoLineBreak(s, j + 41, e)
    ensures ShaFrom(s, j0).Some? && ShaFrom(s, j0).value.0 <= j
    ensures ShaFrom(s, j0).value.0 == j ==> ShaFrom(s, j0).value.1 <= e
    decreases j - j0
  {
    if j0 == j {
      CloseFromComplete(s, j + 41, e);
    } else if !(ShaDirAt(s, j0) && CloseFrom(s, j0 + 41).Some?) {
      ShaFromComplete(s, j0 + 1, j, e);
    }
  }

  /** The sha that `ShaFrom` finds is the first one from which a `)` is
      reachable. */
  lemma ShaFromLeast(s: string, j0: nat, t: (nat, nat), j: nat, e: nat)
    requires ShaFrom(s, j0) == Some(t)
    requires j0 <= j && NoLineBreak(s, j0, j) && ShaDirAt(s, j)
    requires j + 41 <= e < |s| && s[e] == ')' && NoLineBreak(s, j + 41, e)
    ensures t.0 <= j
  {
    ShaFromComplete(s, j0, j, e);
  }

  lemma {:induction false} HostFromComplete(s: string, i0: nat, i: nat, j: nat, e: nat)
    requires i0 <= i && NoLineBreak(s, i0, i) && HostAt(s, i)
    requires i + HostLength <= j && NoLineBreak(s, i + HostLength, j) && ShaDirAt(s, j)
    requires j + 41 <= e < |s| && s[e] == ')' && NoLineBreak(s, j + 41, e)
    ensures HostFrom(s, i0).Some? && HostFrom(s, i0).value.0 <= i
    decreases i - i0
  {
    if i0 == i {
      ShaFromComplete(s, i + HostLength, j, e);
    } else if !(HostAt(s, i0) && ShaFrom(s, i0 + HostLength).Some?) {
      HostFromComplete(s, i0 + 1, i, j, e);
    }
  }

  lemma {:induction false} FirstFromComplete(s: string, p0: nat, p: nat, i: nat, j: nat, e: nat)
    requires p0 <= p && LinkAt(s, p, i, j, e)
    ensures FirstFrom(s, p0).Some? && FirstFrom(s, p0).value.start <= p
    decreases p - p0
  {
    if p0 == p {
      HostFromComplete(s, p + 1, i, j, e);
    } else if !(s[p0] == '[' && HostFrom(s, p0 + 1).Some?) {
      FirstFromComplete(s, p0 + 1, p, i, j, e);
    }
  }

  /** The matcher finds a match exactly when the expression matches
      somewhere in the string. */
  lemma FindLinkComplete(s: string)
    ensures FindLink(s).None? <==> !HasLink(s)
  {
    if HasLink(s) {
      var p: nat, i: nat, j: nat, e: nat :| LinkAt(s, p, i, j, e);
      FirstFromComplete(s, 0, p, i, j, e);
    }
  }

  /** The match returned is the leftmost one. */
  lemma FindLinkLeftmost(s: string, p: nat, i: nat, j: nat, e: nat)
    requires FindLink(s).Some? && LinkAt(s, p, i, j, e)
    ensures FindLink(s).value.start <= p
  {
    FirstFromComplete(s, 0, p, i, j, e);
  }

  /** The match returned is the `[` at its start followed by what
      `HostFrom` finds there. */
  lemma FindLinkParts(s: string, m: Match)
    requires FindLink(s) == Some(m)
    ensures m.start < |s| && HostFrom(s, m.start + 1) == Some((m.host, m.sha, m.close))
  {
    FirstFromAt(s, 0, m.start);
  }

  /** At its start, the match takes each lazy group as short as the rest of
      the expression allows, from left to right: this is the match a
      backtracking matcher reaches first. `FindLinkLazyHost` is the first
      group, `FindLinkLazySha` the second and `FindLinkLazyClose` the capture. */
  lemma FindLinkLazyHost(s: string, m: Match, i: nat, j: nat, e: nat)
    requires FindLink(s) == Some(m) && LinkAt(s, m.start, i, j, e)
    ensures m.host <= i
  {
    FindLinkParts(s, m);
    HostFromComplete(s, m.start + 1, i, j, e);
  }

  lemma FindLinkLazySha(s: string, m: Match, j: nat, e: nat)
    requires FindLink(s) == Some(m) && LinkAt(s, m.start, m.host, j, e)
    ensures m.sha <= j
  {
    FindLinkParts(s, m);
    HostFromSound(s, m.start + 1, (m.host, m.sha, m.close));
    ShaFromLeast(s, m.host + HostLength, (m.sha, m.close), j, e);
  }

  lemma FindLinkLazyClose(s: string, m: Match, e: nat)
    requires FindLink(s) == Some(m) && LinkAt(s, m.start, m.host, m.sha, e)
    ensures m.close <= e
  {
    FindLinkParts(s, m);
    HostFromClose(s, m.start + 1, (m.host, m.sha, m.close));
    CloseFromLeast(s, m.sha + 41, m.close, e);
  }

}
