/** The build-version script (gitrev.py): the firmware version is the last
    tag, followed by `-[branch]` when the checkout is not on the release
    branch and by `-timestamp` when tracked files have uncommitted changes.
    The outputs of the three git commands and the formatted time are
    parameters. */
module GitRev {

  /** `RELEASE_BRANCH`. */
  const ReleaseBranch := "main"

  /** The characters Python's `str.strip()` removes, restricted to ASCII
      and Latin-1. */
  predicate IsSpace(c: char) {
    var n := c as int;
    n == 0x20 || 0x09 <= n <= 0x0D || 0x1C <= n <= 0x1F || n == 0x85 || n == 0xA0
  }

  predicate AllSpace(s: string) {
    forall i :: 0 <= i < |s| ==> IsSpace(s[i])
  }

  /** The number of whitespace characters `lstrip()` removes. */
  function LeadingSpaces(s: string): (k: nat)
    ensures k <= |s|
  {
    if s != [] && IsSpace(s[0]) then 1 + LeadingSpaces(s[1..]) else 0
  }

  /** The number of whitespace characters `rstrip()` removes. */
  function TrailingSpaces(s: string): (k: nat)
    ensures k <= |s|
  {
    if s != [] && IsSpace(s[|s| - 1]) then 1 + TrailingSpaces(s[..|s| - 1]) else 0
  }

  /** `str.strip()`: drop the leading, then the trailing whitespace. */
  function Strip(s: string): string {
    var t := s[LeadingSpaces(s)..];
    t[..|t| - TrailingSpaces(t)]
  }

  /** The leading run is all whitespace and is followed by a character
      that is not. */
  lemma {:induction false} LeadingSpacesSpec(s: string)
    ensures AllSpace(s[..LeadingSpaces(s)])
    ensures LeadingSpaces(s) < |s| ==> !IsSpace(s[LeadingSpaces(s)])
  {
    if s != [] && IsSpace(s[0]) {
      LeadingSpacesSpec(s[1..]);
      var k := LeadingSpaces(s[1..]);
      assert s[..k + 1] == [s[0]] + s[1..][..k];
    }
  }

  /** The trailing run is all whitespace and is preceded by a character
      that is not. */
  lemma {:induction false} TrailingSpacesSpec(s: string)
    ensures AllSpace(s[|s| - TrailingSpaces(s)..])
    ensures TrailingSpaces(s) < |s| ==> !IsSpace(s[|s| - TrailingSpaces(s) - 1])
  {
    if s != [] && IsSpace(s[|s| - 1]) {
      var p := s[..|s| - 1];
      TrailingSpacesSpec(p);
      var k := TrailingSpaces(p);
      assert s[|s| - (k + 1)..] == p[|p| - k..] + [s[|s| - 1]];
    }
  }

  /** `r` is the slice of `s` at `i`, with only whitespace around it. */
  predicate StrippedAt(s: string, r: string, i: int) {
    0 <= i <= |s| - |r| && r == s[i..i + |r|] && AllSpace(s[..i]) && AllSpace(s[i + |r|..])
  }

  /** `strip()` cuts only whitespace, from either side, and leaves none at
      either end. */
  lemma StripSpec(s: string)
    ensures Strip(s) == [] || (!IsSpace(Strip(s)[0]) && !IsSpace(Strip(s)[|Strip(s)| - 1]))
    ensures exists i :: StrippedAt(s, Strip(s), i)
  {
    var a := LeadingSpaces(s);
    var t := s[a..];
    var b := TrailingSpaces(t);
    var r := Strip(s);
    LeadingSpacesSpec(s);
    TrailingSpacesSpec(t);
    assert r == s[a..a + |r|];
    assert s[a + |r|..] == t[|t| - b..];
    assert StrippedAt(s, r, a);
    if r != [] {
      assert r[0] == s[a];
      assert r[|r| - 1] == t[|t| - b - 1];
    }
  }

  /** A string without whitespace at either end is its own strip. */
  lemma StripTrimmed(s: string)
    requires s == [] || (!IsSpace(s[0]) && !IsSpace(s[|s| - 1]))
    ensures Strip(s) == s
  {
    assert s[0..] == s;
    assert s[..|s| - 0] == s;
  }

  /** Stripping twice is stripping once. */
  lemma StripIdempotent(s: string)
    ensures Strip(Strip(s)) == Strip(s)
  {
    StripSpec(s);
    StripTrimmed(Strip(s));
  }

  /** The branch part of the version. */
  function BranchSuffix(branch: string): string {
    if branch != ReleaseBranch then "-[" + branch + "]" else ""
  }

  /** The timestamp part of the version: present when `git status -uno
      --porcelain` printed anything. */
  function DirtySuffix(clean: string, ts: string): string {
    if clean != "" then "-" + ts else ""
  }

  /** The version for the stripped git outputs and the timestamp. */
  function Version(tag: string, branch: string, clean: string, ts: string): string {
    tag + BranchSuffix(branch) + DirtySuffix(clean, ts)
  }

  /** The script itself: `version` starts as the tag and grows by `+=`. */
  method ComposeVersion(tagOutput: string, branchOutput: string, statusOutput: string, ts: string)
    returns (version: string)
    ensures version == Version(Strip(tagOutput), Strip(branchOutput), Strip(statusOutput), ts)
  {
    var tag := Strip(tagOutput);
    version := tag;
    var branch := Strip(branchOutput);
    if branch != ReleaseBranch {
      version := version + ("-[" + branch + "]");
    }
    var clean := Strip(statusOutput);
    if clean != "" {
      version := version + ("-" + ts);
    }
  }

  /** A release build from a clean tree is versioned by its tag alone. */
  lemma ReleaseCleanIsTag(tag: string, clean: string, ts: string)
    requires clean == ""
    ensures Version(tag, ReleaseBranch, clean, ts) == tag
  {
  }

  /** The tag always starts the version. */
  lemma TagIsPrefix(tag: string, branch: string, clean: string, ts: string)
    ensures tag <= Version(tag, branch, clean, ts)
  {
    var v := Version(tag, branch, clean, ts);
    assert v[..|tag|] == tag;
  }

  /** The middle part of a concatenation of three. */
  lemma MiddleSlice(a: string, b: string, c: string)
    ensures (a + b + c)[|a|..|a| + |b|] == b
  {
    assert (a + b + c)[|a|..|a| + |b|] == (a + b)[|a|..];
  }

  /** Off the release branch, `-[branch]` follows the tag directly, so the
      branch can be read back from the version. */
  lemma BranchFollowsTag(tag: string, branch: string, clean: string, ts: string)
    requires branch != ReleaseBranch
    ensures Version(tag, branch, clean, ts)[|tag|..|tag| + |branch| + 3] == "-[" + branch + "]"
    ensures Version(tag, branch, clean, ts)[|tag| + 2..|tag| + 2 + |branch|] == branch
  {
    var v := Version(tag, branch, clean, ts);
    var m := "-[" + branch + "]";
    assert BranchSuffix(branch) == m;
    MiddleSlice(tag, m, DirtySuffix(clean, ts));
    MiddleSlice("-[", branch, "]");
    assert v[|tag| + 2..|tag| + 2 + |branch|] == v[|tag|..|tag| + |m|][2..2 + |branch|];
  }

  /** A dirty tree puts `-ts` last, after any branch part; a clean tree
      adds nothing after the branch part. */
  lemma TimestampLast(tag: string, branch: string, clean: string, ts: string)
    ensures clean != "" ==>
      Version(tag, branch, clean, ts)[|Version(tag, branch, clean, ts)| - |ts| - 1..] == "-" + ts
    ensures clean == "" ==> Version(tag, branch, clean, ts) == tag + BranchSuffix(branch)
  {
    var v := Version(tag, branch, clean, ts);
    if clean != "" {
      assert v == (tag + BranchSuffix(branch)) + ("-" + ts);
    }
  }
}
