/**
 * How the two halves of the pipeline meet. `postprocessSummary` in
 * src/commitSummary.ts turns each token `[path]` of a commit summary into a
 * link `[base name](https://github.com/owner/name/blob/sha/path)`, and
 * `preprocessCommitMessage` in src/summarizePr.ts turns such links back
 * into `[path]` before the summaries go into the pull-request prompt. For
 * a well-formed link the round trip gives back the token exactly.
 */
module LinkRoundTrip {
  import opened Text
  import opened LinkRegex
  import opened SummarizePr
  import opened CommitSummary

  /** No line terminator in `t`. */
  predicate SingleLine(t: string) {
    forall k :: 0 <= k < |t| ==> !IsLineTerminator(t[k])
  }

  /** `c` does not occur in `t`. */
  predicate Lacks(t: string, c: char) {
    forall k :: 0 <= k < |t| ==> t[k] != c
  }

  /** Forty characters of the class `[a-zA-Z0-f]`, as a hexadecimal sha is. */
  predicate IsShaText(sha: string) {
    |sha| == 40 && forall k :: 0 <= k < 40 ==> InClass(sha[k])
  }

  /** `owner/name/blob/`, the part of the link between the host and the sha. */
  function RepoPath(repo: Repository): string {
    repo.owner + "/" + repo.name + "/blob/"
  }

  /** The repository path holds no forty class characters followed by a
      slash, which the expression could take for the sha. */
  predicate NoShaRun(p: string) {
    forall k: nat | k < |p| :: !ShaDirAt(p, k)
  }

  /** The conditions under which a link comes back as its token: the path
      has no `)` and no line terminator, the owner and the name no line
      terminator, and the sha is forty class characters. A `]` in the path,
      as in `pages/[id].tsx`, is allowed. */
  predicate WellFormedLink(repo: Repository, sha: string, f: string) {
    SingleLine(f) && Lacks(f, ')') &&
    SingleLine(RepoPath(repo)) && NoShaRun(RepoPath(repo)) && IsShaText(sha)
  }

  /** Owner and name shorter than forty characters, as GitHub owners always
      are, leave no room for a false sha. */
  lemma ShortPathNoShaRun(repo: Repository)
    requires |repo.owner| < 40 && |repo.name| < 40
    ensures NoShaRun(RepoPath(repo))
  {
    var p := RepoPath(repo);
    forall k: nat | k < |p| ensures !ShaDirAt(p, k) {
      if k + 41 <= |p| {
        // The forty characters would span one of the slashes.
        var slash := if k <= |repo.owner| then |repo.owner| else |repo.owner| + 1 + |repo.name|;
        assert p[slash] == '/';
        assert k <= slash < k + 40 && !InClass(p[slash]);
      }
    }
  }

  /** `Host` is `](` followed by the start of every address. */
  lemma HostSplit()
    ensures Host == "](" + "https://github.com/"
  {
  }

  /** Where the pieces of the address sit. */
  lemma UrlLayout(repo: Repository, sha: string, f: string)
    requires |sha| == 40
    ensures var u := BlobUrl(repo, sha, f);
      var p := RepoPath(repo);
      StartsWith(u, "https://github.com/") &&
      |u| == 19 + |p| + 41 + |f| &&
      (forall k :: 19 <= k < 19 + |p| ==> u[k] == p[k - 19]) &&
      (forall k :: 19 + |p| <= k < 19 + |p| + 40 ==> u[k] == sha[k - 19 - |p|]) &&
      u[19 + |p| + 40] == '/' &&
      (forall k :: 19 + |p| + 41 <= k < |u| ==> u[k] == f[k - 19 - |p| - 41])
  {
    var u := BlobUrl(repo, sha, f);
    var p := RepoPath(repo);
    assert u == "https://github.com/" + p + sha + "/" + f;
  }

  /** The host literal follows the base name in a link. */
  lemma HostInLink(b: string, u: string)
    requires StartsWith(u, "https://github.com/")
    ensures HostAt("[" + b + "](" + u + ")", 1 + |b|)
  {
    var s := "[" + b + "](" + u + ")";
    HostSplit();
    assert s == ("[" + b) + ("](" + u[..19]) + (u[19..] + ")");
    assert s[1 + |b|..1 + |b| + HostLength] == "](" + u[..19];
    HostAtLiteral(s, 1 + |b|);
  }

  /** Where the host literal of a file's link starts. */
  function HostPos(f: string): nat {
    1 + |BaseName(f)|
  }

  /** Where the sha of a file's link starts. */
  function ShaPos(repo: Repository, f: string): nat {
    HostPos(f) + HostLength + |RepoPath(repo)|
  }

  /** The link is `[`, the base name, `](`, the address and `)`. */
  lemma LinkShape(repo: Repository, sha: string, f: string)
    requires |sha| == 40
    ensures var s := LinkText(repo, sha, f);
      var u := BlobUrl(repo, sha, f);
      |s| == ShaPos(repo, f) + 42 + |f| && s[0] == '[' && s[|s| - 1] == ')' &&
      (forall k :: 1 <= k < HostPos(f) ==> s[k] == f[|f| - HostPos(f) + k]) &&
      (forall k :: HostPos(f) + 2 <= k < |s| - 1 ==> s[k] == u[k - HostPos(f) - 2])
  {
    var s := LinkText(repo, sha, f);
    var b := BaseName(f);
    var u := BlobUrl(repo, sha, f);
    UrlLayout(repo, sha, f);
    assert s == "[" + b + "](" + u + ")";
    forall k | 1 <= k < HostPos(f) ensures s[k] == f[|f| - HostPos(f) + k] {
      assert s[k] == b[k - 1];
    }
  }

  /** The host literal of a file's link follows its base name. */
  lemma LinkHost(repo: Repository, sha: string, f: string)
    ensures HostAt(LinkText(repo, sha, f), HostPos(f))
  {
    var u := BlobUrl(repo, sha, f);
    assert u == "https://github.com/" + (repo.owner + "/" + repo.name + "/blob/" + sha + "/" + f);
    HostInLink(BaseName(f), u);
  }

  /** The repository path of a link sits between the host and the sha. */
  lemma LayoutPath(repo: Repository, sha: string, f: string)
    requires |sha| == 40
    ensures forall k :: HostPos(f) + HostLength <= k < ShaPos(repo, f) ==>
      LinkText(repo, sha, f)[k] == RepoPath(repo)[k - HostPos(f) - HostLength]
  {
    LinkShape(repo, sha, f);
    UrlLayout(repo, sha, f);
  }

  /** The sha and the slash after it. */
  lemma LayoutSha(repo: Repository, sha: string, f: string)
    requires |sha| == 40
    ensures forall k :: ShaPos(repo, f) <= k < ShaPos(repo, f) + 40 ==>
      LinkText(repo, sha, f)[k] == sha[k - ShaPos(repo, f)]
    ensures LinkText(repo, sha, f)[ShaPos(repo, f) + 40] == '/'
  {
    LinkShape(repo, sha, f);
    UrlLayout(repo, sha, f);
  }

  /** The full path, between the slash after the sha and the closing `)`. */
  lemma LayoutFile(repo: Repository, sha: string, f: string)
    requires |sha| == 40
    ensures forall k :: ShaPos(repo, f) + 41 <= k < ShaPos(repo, f) + 41 + |f| ==>
      LinkText(repo, sha, f)[k] == f[k - ShaPos(repo, f) - 41]
  {
    LinkShape(repo, sha, f);
    UrlLayout(repo, sha, f);
  }

  /** Between the host and the sha, nothing passes for forty class
      characters and a slash. */
  lemma NoEarlySha(repo: Repository, sha: string, f: string, j: nat)
    requires WellFormedLink(repo, sha, f)
    requires HostPos(f) + HostLength <= j < ShaPos(repo, f)
    ensures !ShaDirAt(LinkText(repo, sha, f), j)
  {
    LayoutPath(repo, sha, f);
    LayoutSha(repo, sha, f);
    var s := LinkText(repo, sha, f);
    var p := RepoPath(repo);
    var q := ShaPos(repo, f);
    if j + 40 >= q {
      assert s[j + 40] == sha[j + 40 - q];
    } else {
      var j' := j - HostPos(f) - HostLength;
      assert !ShaDirAt(p, j');
      if p[j' + 40] == '/' {
        var k' :| j' <= k' < j' + 40 && !InClass(p[k']);
        assert s[k' + HostPos(f) + HostLength] == p[k'];
      }
    }
  }

  /** The whole link is a match of the expression. */
  lemma LinkAtWhole(repo: Repository, sha: string, f: string)
    requires WellFormedLink(repo, sha, f)
    ensures var s := LinkText(repo, sha, f);
      LinkAt(s, 0, HostPos(f), ShaPos(repo, f), |s| - 1)
  {
    LinkShape(repo, sha, f);
    LinkHost(repo, sha, f);
    LayoutPath(repo, sha, f);
    LayoutSha(repo, sha, f);
    LayoutFile(repo, sha, f);
    var s := LinkText(repo, sha, f);
    var h := HostPos(f);
    var q := ShaPos(repo, f);
    var e := |s| - 1;
    assert NoLineBreak(s, 1, h);
    assert NoLineBreak(s, h + HostLength, q);
    assert ShaDirAt(s, q);
    assert NoLineBreak(s, q + 41, e);
  }

  /** No host literal starts inside the base name: the literal holds a `/`
      eight characters in, which a base name cannot hold, and no `]` in its
      first nine characters, where the `]` after the base name would fall. */
  lemma NoHostInBaseName(repo: Repository, sha: string, f: string)
    requires |sha| == 40
    ensures forall k :: 1 <= k < HostPos(f) ==> !HostAt(LinkText(repo, sha, f), k)
  {
    LinkShape(repo, sha, f);
    LinkHost(repo, sha, f);
    var s := LinkText(repo, sha, f);
    var h := HostPos(f);
    forall k | 1 <= k < h ensures !HostAt(s, k) {
      if k + 8 < h {
        // The `/` the literal holds eight characters in would be in the base name.
        var b := BaseName(f);
        assert s[k + 8] == f[|f| - h + k + 8] == b[k + 7];
        assert b[k + 7..k + 8] == [b[k + 7]];
        assert !OccursAt(b, "/", k + 7);
      } else {
        // The `]` after the base name falls where the literal has no `]`.
        assert s[h] == ']';
      }
    }
  }

  /** The match found starts at the link and its host literal is the one
      after the base name. */
  lemma MatchHost(repo: Repository, sha: string, f: string)
    requires WellFormedLink(repo, sha, f)
    ensures var s := LinkText(repo, sha, f);
      FindLink(s).Some? && FindLink(s).value.start == 0 && FindLink(s).value.host == HostPos(f)
  {
    LinkShape(repo, sha, f);
    LinkAtWhole(repo, sha, f);
    var s := LinkText(repo, sha, f);
    var h := HostPos(f);
    FindLinkComplete(s);
    var m := FindLink(s).value;
    FindLinkLeftmost(s, 0, h, ShaPos(repo, f), |s| - 1);
    FindLinkLazyHost(s, m, h, ShaPos(repo, f), |s| - 1);
    NoHostInBaseName(repo, sha, f);
  }

  /** Its sha is the one in the link. */
  lemma MatchSha(repo: Repository, sha: string, f: string)
    requires WellFormedLink(repo, sha, f)
    ensures var s := LinkText(repo, sha, f);
      FindLink(s).Some? && FindLink(s).value.sha == ShaPos(repo, f)
  {
    MatchHost(repo, sha, f);
    LinkAtWhole(repo, sha, f);
    var s := LinkText(repo, sha, f);
    var m := FindLink(s).value;
    FindLinkLazySha(s, m, ShaPos(repo, f), |s| - 1);
    forall j | HostPos(f) + HostLength <= j < ShaPos(repo, f) ensures !ShaDirAt(s, j) {
      NoEarlySha(repo, sha, f, j);
    }
  }

  /** Its closing parenthesis is the last character of the link. */
  lemma MatchClose(repo: Repository, sha: string, f: string)
    requires WellFormedLink(repo, sha, f)
    ensures var s := LinkText(repo, sha, f);
      FindLink(s).Some? && FindLink(s).value.close == |s| - 1
  {
    MatchSha(repo, sha, f);
    LinkAtWhole(repo, sha, f);
    LinkShape(repo, sha, f);
    LayoutFile(repo, sha, f);
    var s := LinkText(repo, sha, f);
    FindLinkLazyClose(s, FindLink(s).value, |s| - 1);
    assert forall k :: ShaPos(repo, f) + 41 <= k < |s| - 1 ==> s[k] != ')';
  }

  /** The expression finds the whole link, with the base name as first
      group, the repository path as second, and the full path captured. */
  lemma LinkMatch(repo: Repository, sha: string, f: string)
    requires WellFormedLink(repo, sha, f)
    ensures var s := LinkText(repo, sha, f);
      FindLink(s) == Some(Match(0, HostPos(f), ShaPos(repo, f), |s| - 1))
  {
    MatchHost(repo, sha, f);
    MatchSha(repo, sha, f);
    MatchClose(repo, sha, f);
  }

  /** A token `[path]` of a path without `)` holds no link: the only `)`
      would have to come from the path. */
  lemma TokenHasNoLink(f: string)
    requires Lacks(f, ')')
    ensures FindLink(Token(f)).None?
  {
    var t := Token(f);
    forall p: nat, i: nat, j: nat, e: nat ensures !LinkAt(t, p, i, j, e) {
      if 0 < e < |t| - 1 {
        assert t[e] == f[e - 1];
      }
    }
    FindLinkComplete(t);
  }

  /** Collapsing the link of a file gives back the file's token. */
  lemma CollapseLinkText(repo: Repository, sha: string, f: string)
    requires WellFormedLink(repo, sha, f)
    ensures CollapseLinks(LinkText(repo, sha, f)) == Token(f)
  {
    var s := LinkText(repo, sha, f);
    LinkMatch(repo, sha, f);
    var m := FindLink(s).value;
    assert Whole(s, m) == s;
    assert Capture(s, m) == f;
    ReplaceAllWhole(s, Token(f));
    assert CollapseOnce(s, m) == Token(f);
    TokenHasNoLink(f);
  }

  /** A summary that is just a file's token is linked by
      `postprocessSummary` and collapsed back by `preprocessCommitMessage`. */
  lemma PostprocessThenPreprocess(repo: Repository, sha: string, f: string)
    requires WellFormedLink(repo, sha, f)
    ensures CollapseLinks(Linkify(repo, sha, [f], Token(f))) == Token(f)
  {
    assert [f][..0] == [];
    ReplaceAllWhole(Token(f), LinkText(repo, sha, f));
    CollapseLinkText(repo, sha, f);
  }
}
