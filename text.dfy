/**
 * The JavaScript string built-ins the summarizer relies on, written as
 * functions over `string`. A `char` is a Unicode scalar value, so a
 * character outside the Basic Multilingual Plane is one `char` but two
 * UTF-16 code units; JavaScript's `s.length` is `Utf16Length(s)`.
 *
 *  - `s.split(sep)` with a non-empty string separator is `Split`;
 *  - `parts.join(sep)` is `Join`;
 *  - `s.split(pat).join(rep)`, the idiom the source uses for "replace all",
 *    is `ReplaceAll`, a left-to-right scan that replaces non-overlapping
 *    occurrences; `ReplaceAllIsSplitJoin` proves the two agree;
 *  - `s.includes(p)` is `Contains`, `s.startsWith(p)` / an anchored literal
 *    regular expression is `StartsWith`.
 */
module Text {

  datatype Option<+T> = None | Some(value: T) {
    function GetOr(default: T): T {
      match this
      case Some(v) => v
      case None => default
    }
  }

  datatype Result<+R, +E> = Success(value: R) | Failure(error: E)

  /** JavaScript's `s.length`: one UTF-16 code unit per character of the
      Basic Multilingual Plane, a surrogate pair (two) for any other. */
  function Utf16Length(s: string): (n: nat)
    ensures |s| <= n <= 2 * |s|
    decreases |s|
  {
    if s == [] then 0
    else Utf16Length(s[1..]) + (if s[0] as int < 0x1_0000 then 1 else 2)
  }

  /** The length counts characters exactly when every character lies in
      the Basic Multilingual Plane. */
  lemma {:induction false} Utf16LengthBmp(s: string)
    ensures Utf16Length(s) == |s| <==> forall k :: 0 <= k < |s| ==> s[k] as int < 0x1_0000
    decreases |s|
  {
    if s != [] {
      var t := s[1..];
      Utf16LengthBmp(t);
      assert Utf16Length(s) == Utf16Length(t) + (if s[0] as int < 0x1_0000 then 1 else 2);
      if forall k :: 0 <= k < |s| ==> s[k] as int < 0x1_0000 {
        assert s[0] as int < 0x1_0000;
        forall k | 0 <= k < |t| ensures t[k] as int < 0x1_0000 {
          assert t[k] == s[k + 1];
        }
      }
      if Utf16Length(s) == |s| {
        assert s[0] as int < 0x1_0000 && Utf16Length(t) == |t|;
        forall k | 0 <= k < |s| ensures s[k] as int < 0x1_0000 {
          if k > 0 {
            assert s[k] == t[k - 1];
          }
        }
      }
    }
  }

  /** The length of a concatenation is the sum of the lengths. */
  lemma {:induction false} Utf16LengthConcat(a: string, b: string)
    ensures Utf16Length(a + b) == Utf16Length(a) + Utf16Length(b)
    decreases |a|
  {
    if a != [] {
      assert (a + b)[0] == a[0] && (a + b)[1..] == a[1..] + b;
      Utf16LengthConcat(a[1..], b);
    } else {
      assert a + b == b;
    }
  }

  predicate StartsWith(s: string, p: string) {
    |p| <= |s| && s[..|p|] == p
  }

  /** `p` occurs in `s` at index `i`. */
  predicate OccursAt(s: string, p: string, i: nat) {
    i + |p| <= |s| && s[i..i + |p|] == p
  }

  predicate Contains(s: string, p: string) {
    exists i: nat | i <= |s| :: OccursAt(s, p, i)
  }

  /** `i` is the first index at which `p` occurs in `s`. */
  predicate FirstOccurrence(s: string, p: string, i: nat) {
    OccursAt(s, p, i) && forall j: nat :: j < i ==> !OccursAt(s, p, j)
  }

  /** JavaScript `s.split(sep)` for a non-empty string separator. */
  function Split(s: string, sep: string): (parts: seq<string>)
    requires sep != ""
    ensures |parts| >= 1
    decreases |s|
  {
    if |s| < |sep| then [s]
    else if s[..|sep|] == sep then [""] + Split(s[|sep|..], sep)
    else
      var rest := Split(s[1..], sep);
      [[s[0]] + rest[0]] + rest[1..]
  }

  /** JavaScript `parts.join(sep)`. */
  function Join(parts: seq<string>, sep: string): string
    decreases |parts|
  {
    if |parts| == 0 then ""
    else if |parts| == 1 then parts[0]
    else parts[0] + sep + Join(parts[1..], sep)
  }

  /** `s.split(pat).join(rep)`: every non-overlapping occurrence of `pat`,
      found from left to right, is replaced by `rep`. */
  function ReplaceAll(s: string, pat: string, rep: string): string
    requires pat != ""
    decreases |s|
  {
    if |s| < |pat| then s
    else if s[..|pat|] == pat then rep + ReplaceAll(s[|pat|..], pat, rep)
    else [s[0]] + ReplaceAll(s[1..], pat, rep)
  }

  lemma OccursAtShift(s: string, p: string, j: nat)
    requires 1 <= |s|
    ensures OccursAt(s[1..], p, j) <==> OccursAt(s, p, j + 1)
  {
    if j + 1 + |p| <= |s| {
      assert s[1..][j..j + |p|] == s[j + 1..j + 1 + |p|];
    }
  }

  lemma JoinCons(c: char, parts: seq<string>, sep: string)
    requires |parts| >= 1
    ensures Join([[c] + parts[0]] + parts[1..], sep) == [c] + Join(parts, sep)
  {
    var q := [[c] + parts[0]] + parts[1..];
    assert q[1..] == parts[1..];
  }

  /** Joining two non-empty lists puts one separator between them. */
  lemma {:induction false} JoinAppend(xs: seq<string>, ys: seq<string>, sep: string)
    requires |xs| >= 1 && |ys| >= 1
    ensures Join(xs + ys, sep) == Join(xs, sep) + sep + Join(ys, sep)
    decreases |xs|
  {
    if |xs| == 1 {
      assert (xs + ys)[1..] == ys;
    } else {
      assert (xs + ys)[1..] == xs[1..] + ys;
      JoinAppend(xs[1..], ys, sep);
    }
  }

  /** Splitting on a separator and joining with the same separator gives
      the string back: the patch lines `formatGitDiff` copies one by one
      reassemble into the original patch. */
  lemma {:induction false} JoinSplit(s: string, sep: string)
    requires sep != ""
    ensures Join(Split(s, sep), sep) == s
    decreases |s|
  {
    if |s| < |sep| {
    } else if s[..|sep|] == sep {
      var rest := Split(s[|sep|..], sep);
      assert Split(s, sep) == [""] + rest;
      assert ([""] + rest)[1..] == rest;
      JoinSplit(s[|sep|..], sep);
      assert s == sep + s[|sep|..];
    } else {
      var rest := Split(s[1..], sep);
      assert Split(s, sep) == [[s[0]] + rest[0]] + rest[1..];
      JoinSplit(s[1..], sep);
      JoinCons(s[0], rest, sep);
      assert s == [s[0]] + s[1..];
    }
  }

  /** The recursive `ReplaceAll` is JavaScript's `split(pat).join(rep)`. */
  lemma {:induction false} ReplaceAllIsSplitJoin(s: string, pat: string, rep: string)
    requires pat != ""
    ensures ReplaceAll(s, pat, rep) == Join(Split(s, pat), rep)
    decreases |s|
  {
    if |s| < |pat| {
    } else if s[..|pat|] == pat {
      var rest := Split(s[|pat|..], pat);
      ReplaceAllIsSplitJoin(s[|pat|..], pat, rep);
      assert ([""] + rest)[1..] == rest;
    } else {
      var rest := Split(s[1..], pat);
      ReplaceAllIsSplitJoin(s[1..], pat, rep);
      JoinCons(s[0], rest, rep);
    }
  }

  /** A string without any occurrence of the pattern is left unchanged. */
  lemma {:induction false} ReplaceAllAbsent(s: string, pat: string, rep: string)
    requires pat != "" && !Contains(s, pat)
    ensures ReplaceAll(s, pat, rep) == s
    decreases |s|
  {
    if |s| >= |pat| {
      assert !OccursAt(s, pat, 0);
      assert !Contains(s[1..], pat) by {
        forall j: nat ensures !OccursAt(s[1..], pat, j) {
          OccursAtShift(s, pat, j);
        }
      }
      ReplaceAllAbsent(s[1..], pat, rep);
      assert s == [s[0]] + s[1..];
    }
  }

  /** Replacing by something no longer never makes the string longer, and
      strictly shortens it when the pattern occurs: this is what makes the
      link-collapsing loop terminate. */
  lemma {:induction false} ReplaceAllShrinks(s: string, pat: string, rep: string)
    requires pat != "" && |rep| <= |pat|
    ensures |ReplaceAll(s, pat, rep)| <= |s|
    ensures |rep| < |pat| && Contains(s, pat) ==> |ReplaceAll(s, pat, rep)| < |s|
    decreases |s|
  {
    if |s| >= |pat| {
      if s[..|pat|] == pat {
        ReplaceAllShrinks(s[|pat|..], pat, rep);
      } else {
        ReplaceAllShrinks(s[1..], pat, rep);
        if Contains(s, pat) {
          var i: nat :| OccursAt(s, pat, i);
          assert i != 0;
          OccursAtShift(s, pat, i - 1);
        }
      }
    }
  }

  /** A string that is exactly the pattern becomes exactly the replacement. */
  lemma ReplaceAllWhole(s: string, rep: string)
    requires s != ""
    ensures ReplaceAll(s, s, rep) == rep
  {
    assert s[..|s|] == s;
    assert s[|s|..] == "";
  }

  /** A first occurrence past index 0 is, one character later, the first
      occurrence in the rest of the string. */
  lemma FirstOccurrenceShift(s: string, p: string, i: nat)
    requires 1 <= i && FirstOccurrence(s, p, i)
    ensures !OccursAt(s, p, 0) && FirstOccurrence(s[1..], p, i - 1)
  {
    OccursAtShift(s, p, i - 1);
    forall j: nat | j < i - 1 ensures !OccursAt(s[1..], p, j) {
      OccursAtShift(s, p, j);
    }
  }

  /** The part of `s.split(sep)` before the first separator. */
  lemma {:induction false} SplitAtFirst(s: string, sep: string, i: nat)
    requires sep != "" && FirstOccurrence(s, sep, i)
    ensures Split(s, sep) == [s[..i]] + Split(s[i + |sep|..], sep)
    decreases i
  {
    if i == 0 {
      assert s[..|sep|] == sep;
    } else {
      FirstOccurrenceShift(s, sep, i);
      assert s[..|sep|] != sep by {
        assert s[..|sep|] == s[0..0 + |sep|];
      }
      var rest := Split(s[1..], sep);
      assert Split(s, sep) == [[s[0]] + rest[0]] + rest[1..];
      SplitAtFirst(s[1..], sep, i - 1);
      assert s[1..][i - 1 + |sep|..] == s[i + |sep|..];
      assert [s[0]] + s[1..][..i - 1] == s[..i];
    }
  }

  /** Without any separator, `s.split(sep)` is `[s]`. */
  lemma {:induction false} SplitAbsent(s: string, sep: string)
    requires sep != "" && !Contains(s, sep)
    ensures Split(s, sep) == [s]
    decreases |s|
  {
    if |s| >= |sep| {
      assert !OccursAt(s, sep, 0);
      assert !Contains(s[1..], sep) by {
        forall j: nat ensures !OccursAt(s[1..], sep, j) {
          OccursAtShift(s, sep, j);
        }
      }
      SplitAbsent(s[1..], sep);
      assert s == [s[0]] + s[1..];
    }
  }

  lemma HasFirstOccurrence(s: string, p: string)
    requires Contains(s, p)
    ensures exists i: nat :: FirstOccurrence(s, p, i)
  {
    var k: nat :| OccursAt(s, p, k);
    FirstBelow(s, p, k);
  }

  lemma {:induction false} FirstBelow(s: string, p: string, k: nat)
    requires OccursAt(s, p, k)
    ensures exists i: nat :: i <= k && FirstOccurrence(s, p, i)
    decreases k
  {
    if exists j: nat :: j < k && OccursAt(s, p, j) {
      var j: nat :| j < k && OccursAt(s, p, j);
      FirstBelow(s, p, j);
    } else {
      assert FirstOccurrence(s, p, k);
    }
  }

  /** The first element of `s.split(sep)` and the rest, for both cases. */
  lemma SplitHead(s: string, sep: string)
    requires sep != ""
    ensures !Contains(s, sep) ==> Split(s, sep) == [s]
    ensures forall i: nat :: FirstOccurrence(s, sep, i) ==>
              Split(s, sep) == [s[..i]] + Split(s[i + |sep|..], sep)
    ensures StartsWith(s, Split(s, sep)[0])
  {
    if !Contains(s, sep) {
      SplitAbsent(s, sep);
    } else {
      HasFirstOccurrence(s, sep);
      var i: nat :| FirstOccurrence(s, sep, i);
      SplitAtFirst(s, sep, i);
    }
    forall i: nat | FirstOccurrence(s, sep, i)
      ensures Split(s, sep) == [s[..i]] + Split(s[i + |sep|..], sep)
    {
      SplitAtFirst(s, sep, i);
    }
  }

  /** `s.split(sep)[0]`: the text before the first separator, or all of `s`. */
  function BeforeFirst(s: string, sep: string): (r: string)
    requires sep != ""
    ensures StartsWith(s, r)
    ensures !Contains(s, sep) ==> r == s
    ensures forall i: nat :: FirstOccurrence(s, sep, i) ==> r == s[..i]
  {
    SplitHead(s, sep);
    Split(s, sep)[0]
  }

  /** `s.split("\n").slice(1).join("\n")`: the text after the first line
      break, or the empty string when there is none. */
  function DropFirstLine(s: string): (r: string)
    ensures !Contains(s, "\n") ==> r == ""
    ensures forall i: nat :: FirstOccurrence(s, "\n", i) ==> r == s[i + 1..]
  {
    DropFirstLineSpec(s);
    Join(Split(s, "\n")[1..], "\n")
  }

  lemma DropFirstLineSpec(s: string)
    ensures !Contains(s, "\n") ==> Join(Split(s, "\n")[1..], "\n") == ""
    ensures forall i: nat :: FirstOccurrence(s, "\n", i) ==>
              Join(Split(s, "\n")[1..], "\n") == s[i + 1..]
  {
    SplitHead(s, "\n");
    forall i: nat | FirstOccurrence(s, "\n", i)
      ensures Join(Split(s, "\n")[1..], "\n") == s[i + 1..]
    {
      assert Split(s, "\n")[1..] == Split(s[i + 1..], "\n");
      JoinSplit(s[i + 1..], "\n");
    }
  }

  /** `f.split("/")` followed by taking the last element: the file's base
      name, the text after the last slash. */
  function BaseName(f: string): (r: string)
    ensures !Contains(r, "/")
    ensures |r| <= |f| && r == f[|f| - |r|..]
    ensures !Contains(f, "/") ==> r == f
    ensures |r| < |f| ==> f[|f| - |r| - 1] == '/'
  {
    LastSplitPart(f);
    LastPart(f)
  }

  /** The last element of `f.split("/")`. */
  function LastPart(f: string): string {
    var parts := Split(f, "/");
    parts[|parts| - 1]
  }

  lemma {:induction false} LastSplitPart(f: string)
    ensures !Contains(LastPart(f), "/")
    ensures |LastPart(f)| <= |f| && LastPart(f) == f[|f| - |LastPart(f)|..]
    ensures !Contains(f, "/") ==> LastPart(f) == f
    ensures |LastPart(f)| < |f| ==> f[|f| - |LastPart(f)| - 1] == '/'
    decreases |f|
  {
    if !Contains(f, "/") {
      SplitAbsent(f, "/");
      assert Split(f, "/") == [f];
    } else {
      HasFirstOccurrence(f, "/");
      var i: nat :| FirstOccurrence(f, "/", i);
      LastPartShift(f, i);
      LastSplitPart(f[i + 1..]);
      assert f[i] == '/' by {
        assert f[i..i + 1] == "/";
      }
      SuffixAfterSlash(f, i, LastPart(f[i + 1..]));
    }
  }

  /** The last part of the text is the last part of what follows its first
      slash. */
  lemma LastPartShift(f: string, i: nat)
    requires FirstOccurrence(f, "/", i)
    ensures LastPart(f) == LastPart(f[i + 1..])
  {
    SplitAtFirst(f, "/", i);
    var rest := Split(f[i + 1..], "/");
    assert Split(f, "/") == [f[..i]] + rest;
  }

  /** A suffix of the text after a slash, itself preceded by a slash when
      shorter, is a suffix of the whole text preceded by a slash. */
  lemma SuffixAfterSlash(f: string, i: nat, r: string)
    requires i < |f| && f[i] == '/'
    requires var g := f[i + 1..];
      |r| <= |g| && r == g[|g| - |r|..] && (|r| < |g| ==> g[|g| - |r| - 1] == '/')
    ensures |r| < |f| && r == f[|f| - |r|..] && f[|f| - |r| - 1] == '/'
  {
    var g := f[i + 1..];
    assert g[|g| - |r|..] == f[|f| - |r|..];
    if |r| < |g| {
      assert g[|g| - |r| - 1] == f[|f| - |r| - 1];
    }
  }

  /** Decimal digits of a natural number, as JavaScript prints `idx + 1`. */
  function Decimal(n: nat): (r: string)
    ensures |r| >= 1 && forall k :: 0 <= k < |r| ==> '0' <= r[k] <= '9'
    decreases n
  {
    if n < 10 then [Digit(n)] else Decimal(n / 10) + [Digit(n % 10)]
  }

  function Digit(d: nat): (c: char)
    requires d < 10
    ensures '0' <= c <= '9' && c as int - '0' as int == d
  {
    ('0' as int + d) as char
  }

  /** The value a string of decimal digits denotes. */
  function DecimalValue(s: string): nat
    requires forall k :: 0 <= k < |s| ==> '0' <= s[k] <= '9'
  {
    if s == [] then 0
    else DecimalValue(s[..|s| - 1]) * 10 + (s[|s| - 1] as int - '0' as int)
  }

  /** `Decimal` prints a number that reads back as itself, with no leading zero. */
  lemma {:induction false} DecimalRoundTrip(n: nat)
    ensures DecimalValue(Decimal(n)) == n
    ensures |Decimal(n)| > 1 ==> Decimal(n)[0] != '0'
    decreases n
  {
    var r := Decimal(n);
    if n >= 10 {
      DecimalRoundTrip(n / 10);
      assert r[..|r| - 1] == Decimal(n / 10);
    } else {
      assert r[..|r| - 1] == [];
    }
  }
}
