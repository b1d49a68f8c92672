/** Host patterns and the matcher. */
module Matcher {
  // Host patterns: '*' stands for any run, '?' for exactly one byte, every other
  // byte for itself.  The matcher is the usual iterative one, which remembers only
  // the last star it passed.  Its first test compares the two bytes for equality, so
  // a '*' in the value is consumed by a '*' in the pattern as an ordinary byte; the
  // last theorem says exactly which values that spoils.

  /** The declarative meaning of a pattern. */
  ghost predicate Glob(pattern: string, value: string)
    decreases |pattern|
  {
    if pattern == "" then value == ""
    else if pattern[0] == '*' then exists k :: 0 <= k <= |value| && Glob(pattern[1..], value[k..])
    else value != "" && (pattern[0] == '?' || pattern[0] == value[0]) && Glob(pattern[1..], value[1..])
  }

  ghost predicate AllStars(pattern: string) {
    forall i :: 0 <= i < |pattern| ==> pattern[i] == '*'
  }

  /** What the loop answers from a given position: `star` is the last star passed
      (-1 when none) and `resume` where the run it stands for ends so far. */
  ghost predicate Scan(pattern: string, value: string, p: nat, v: nat, star: int, resume: nat)
    requires p <= |pattern| && resume <= v <= |value| && -1 <= star < p
    decreases |value| - resume, |value| - v + |pattern| - p
  {
    if v == |value| then AllStars(pattern[p..])
    else if p < |pattern| && (pattern[p] == '?' || pattern[p] == value[v]) then
      Scan(pattern, value, p + 1, v + 1, star, resume)
    else if p < |pattern| && pattern[p] == '*' then Scan(pattern, value, p + 1, v, p, v)
    else if star >= 0 then Scan(pattern, value, star + 1, resume + 1, star, resume + 1)
    else false
  }

  method MatchPattern(pattern: string, value: string) returns (matched: bool)
    ensures matched == Scan(pattern, value, 0, 0, -1, 0)
    ensures matched ==> Glob(pattern, value)
    ensures '*' !in value ==> matched == Glob(pattern, value)
  {
    ScanMeetsGlob(pattern, value);
    var patternIndex, valueIndex := 0, 0;
    var starIndex, resumeIndex := -1, 0;
    while valueIndex < |value|
      invariant 0 <= patternIndex <= |pattern| && 0 <= resumeIndex <= valueIndex <= |value|
      invariant -1 <= starIndex < patternIndex
      invariant Scan(pattern, value, 0, 0, -1, 0)
             == Scan(pattern, value, patternIndex, valueIndex, starIndex, resumeIndex)
      decreases |value| - resumeIndex, |value| - valueIndex + |pattern| - patternIndex
    {
      if patternIndex < |pattern| && (pattern[patternIndex] == '?' || pattern[patternIndex] == value[valueIndex]) {
        patternIndex := patternIndex + 1;
        valueIndex := valueIndex + 1;
      } else if patternIndex < |pattern| && pattern[patternIndex] == '*' {
        starIndex := patternIndex;
        resumeIndex := valueIndex;
        patternIndex := patternIndex + 1;
      } else if starIndex >= 0 {
        patternIndex := starIndex + 1;
        resumeIndex := resumeIndex + 1;
        valueIndex := resumeIndex;
      } else {
        return false;
      }
    }
    ghost var rest := pattern[patternIndex..];
    ghost var from := patternIndex;
    while patternIndex < |pattern| && pattern[patternIndex] == '*'
      invariant from <= patternIndex <= |pattern|
      invariant forall i :: from <= i < patternIndex ==> pattern[i] == '*'
    {
      patternIndex := patternIndex + 1;
    }
    assert patternIndex < |pattern| ==> rest[patternIndex - from] != '*';
    return patternIndex == |pattern|;
  }

  // ---- soundness, for every value ----

  ghost predicate LaterStart(pattern: string, value: string, star: int, resume: nat)
    requires -1 <= star < |pattern|
  {
    star >= 0 && exists j :: resume < j <= |value| && Glob(pattern[star + 1..], value[j..])
  }

  lemma {:induction false} AllStarsGlob(pattern: string)
    ensures Glob(pattern, "") == AllStars(pattern)
  {
    if pattern != "" {
      AllStarsGlob(pattern[1..]);
      assert ""[0..] == "";
      if pattern[0] == '*' {
        assert Glob(pattern, "") == Glob(pattern[1..], "");
        assert AllStars(pattern[1..]) ==> AllStars(pattern) by {
          assert forall i :: 1 <= i < |pattern| ==> pattern[i] == pattern[1..][i - 1];
        }
      }
    }
  }

  lemma {:induction false} ScanSound(pattern: string, value: string, p: nat, v: nat, star: int, resume: nat)
    requires p <= |pattern| && resume <= v <= |value| && -1 <= star < p
    requires Scan(pattern, value, p, v, star, resume)
    ensures Glob(pattern[p..], value[v..]) || LaterStart(pattern, value, star, resume)
    decreases |value| - resume, |value| - v + |pattern| - p
  {
    if v == |value| {
      AllStarsGlob(pattern[p..]);
      assert value[v..] == "";
    } else {
      if p < |pattern| {
        assert pattern[p..][0] == pattern[p] && pattern[p..][1..] == pattern[p + 1..];
        assert value[v..][1..] == value[v + 1..] && value[v..][0] == value[v];
      }
      if p < |pattern| && (pattern[p] == '?' || pattern[p] == value[v]) {
        ScanSound(pattern, value, p + 1, v + 1, star, resume);
      } else if p < |pattern| && pattern[p] == '*' {
        ScanSound(pattern, value, p + 1, v, p, v);
        assert value[v..][0..] == value[v..];
        if LaterStart(pattern, value, p, v) {
          var j :| v < j <= |value| && Glob(pattern[p + 1..], value[j..]);
          assert value[v..][j - v..] == value[j..];
        }
      } else {
        ScanSound(pattern, value, star + 1, resume + 1, star, resume + 1);
      }
    }
  }

  // ---- completeness, for a value without a star ----

  lemma {:induction false} PeelSegment(pattern: string, value: string, length: nat)
    requires length <= |pattern| && '*' !in pattern[..length]
    requires Glob(pattern, value)
    ensures length <= |value| && Glob(pattern[length..], value[length..])
  {
    if length > 0 {
      assert pattern[..length][0] == pattern[0];
      assert pattern[1..][..length - 1] == pattern[..length][1..];
      PeelSegment(pattern[1..], value[1..], length - 1);
      assert pattern[1..][length - 1..] == pattern[length..];
      assert value[1..][length - 1..] == value[length..];
    }
  }

  /** Whatever an earlier star could still reach, the newest star reaches too. */
  lemma LastStarSuffices(pattern: string, value: string, p: nat, v: nat, star: int, resume: nat)
    requires p < |pattern| && pattern[p] == '*' && resume <= v <= |value| && 0 <= star < p
    requires '*' !in pattern[star + 1..p] && p - star - 1 == v - resume
    requires LaterStart(pattern, value, star, resume)
    ensures LaterStart(pattern, value, p, v)
  {
    var j :| resume < j <= |value| && Glob(pattern[star + 1..], value[j..]);
    var length := v - resume;
    assert pattern[star + 1..][..length] == pattern[star + 1..p];
    PeelSegment(pattern[star + 1..], value[j..], length);
    assert pattern[star + 1..][length..] == pattern[p..];
    assert value[j..][length..] == value[j + length..];
    var k :| 0 <= k <= |value[j + length..]| && Glob(pattern[p..][1..], value[j + length..][k..]);
    assert pattern[p..][1..] == pattern[p + 1..];
    assert value[j + length..][k..] == value[j + length + k..];
  }

  lemma GlobStep(pattern: string, value: string, p: nat, v: nat)
    requires p < |pattern| && v < |value| && pattern[p] != '*'
    ensures Glob(pattern[p..], value[v..])
         == ((pattern[p] == '?' || pattern[p] == value[v]) && Glob(pattern[p + 1..], value[v + 1..]))
  {
    assert pattern[p..][1..] == pattern[p + 1..];
    assert value[v..][1..] == value[v + 1..];
  }

  lemma GlobStar(pattern: string, value: string, p: nat, v: nat)
    requires p < |pattern| && v <= |value| && pattern[p] == '*'
    ensures Glob(pattern[p..], value[v..])
        <==> Glob(pattern[p + 1..], value[v..]) || LaterStart(pattern, value, p, v)
  {
    assert pattern[p..][1..] == pattern[p + 1..] && value[v..][0..] == value[v..];
    if Glob(pattern[p..], value[v..]) {
      var k :| 0 <= k <= |value[v..]| && Glob(pattern[p..][1..], value[v..][k..]);
      assert value[v..][k..] == value[v + k..];
    }
    if LaterStart(pattern, value, p, v) {
      var j :| v < j <= |value| && Glob(pattern[p + 1..], value[j..]);
      assert value[v..][j - v..] == value[j..];
    }
  }

  /** A run begun at a later start leaves less of the value than the segment needs. */
  lemma LaterStartIsShort(pattern: string, value: string, p: nat, v: nat, star: int, resume: nat)
    requires p <= |pattern| && resume <= v <= |value| && 0 <= star < p
    requires '*' !in pattern[star + 1..p] && p - star - 1 == v - resume
    requires LaterStart(pattern, value, star, resume)
    ensures v < |value|
  {
    var j :| resume < j <= |value| && Glob(pattern[star + 1..], value[j..]);
    assert pattern[star + 1..][..v - resume] == pattern[star + 1..p];
    PeelSegment(pattern[star + 1..], value[j..], v - resume);
  }

  ghost predicate Reachable(pattern: string, value: string, p: nat, v: nat, star: int, resume: nat)
    requires p <= |pattern| && resume <= v <= |value| && -1 <= star < p
  {
    Glob(pattern[p..], value[v..]) || LaterStart(pattern, value, star, resume)
  }

  /** The segment since the last star holds no star and is as long as the run it covers. */
  ghost predicate OnTrack(pattern: string, p: nat, v: nat, star: int, resume: nat)
    requires p <= |pattern| && -1 <= star < p
  {
    star >= 0 ==> '*' !in pattern[star + 1..p] && p - star - 1 == v - resume
  }

  lemma AfterLiteral(pattern: string, value: string, p: nat, v: nat, star: int, resume: nat)
    requires p < |pattern| && resume <= v < |value| && -1 <= star < p
    requires pattern[p] != '*' && (pattern[p] == '?' || pattern[p] == value[v])
    requires OnTrack(pattern, p, v, star, resume) && Reachable(pattern, value, p, v, star, resume)
    ensures OnTrack(pattern, p + 1, v + 1, star, resume)
    ensures Reachable(pattern, value, p + 1, v + 1, star, resume)
  {
    GlobStep(pattern, value, p, v);
    assert star >= 0 ==> pattern[star + 1..p + 1] == pattern[star + 1..p] + [pattern[p]];
  }

  lemma AfterStar(pattern: string, value: string, p: nat, v: nat, star: int, resume: nat)
    requires p < |pattern| && resume <= v <= |value| && -1 <= star < p && pattern[p] == '*'
    requires OnTrack(pattern, p, v, star, resume) && Reachable(pattern, value, p, v, star, resume)
    ensures OnTrack(pattern, p + 1, v, p, v)
    ensures Reachable(pattern, value, p + 1, v, p, v)
  {
    GlobStar(pattern, value, p, v);
    if LaterStart(pattern, value, star, resume) {
      LastStarSuffices(pattern, value, p, v, star, resume);
    }
  }

  lemma AfterMismatch(pattern: string, value: string, p: nat, v: nat, star: int, resume: nat)
    requires p <= |pattern| && resume <= v < |value| && -1 <= star < p
    requires p < |pattern| ==> pattern[p] != '*' && pattern[p] != '?' && pattern[p] != value[v]
    requires Reachable(pattern, value, p, v, star, resume)
    ensures star >= 0
    ensures Reachable(pattern, value, star + 1, resume + 1, star, resume + 1)
  {
    if p < |pattern| {
      GlobStep(pattern, value, p, v);
    } else {
      assert pattern[p..] == "";
    }
    var j :| resume < j <= |value| && Glob(pattern[star + 1..], value[j..]);
  }

  lemma {:induction false} ScanComplete(pattern: string, value: string, p: nat, v: nat, star: int, resume: nat)
    requires p <= |pattern| && resume <= v <= |value| && -1 <= star < p
    requires '*' !in value
    requires OnTrack(pattern, p, v, star, resume) && Reachable(pattern, value, p, v, star, resume)
    ensures Scan(pattern, value, p, v, star, resume)
    decreases |value| - resume, |value| - v + |pattern| - p
  {
    if v == |value| {
      if LaterStart(pattern, value, star, resume) { LaterStartIsShort(pattern, value, p, v, star, resume); }
      AllStarsGlob(pattern[p..]);
      assert value[v..] == "";
    } else if p < |pattern| && pattern[p] == '*' {
      AfterStar(pattern, value, p, v, star, resume);
      ScanComplete(pattern, value, p + 1, v, p, v);
    } else if p < |pattern| && (pattern[p] == '?' || pattern[p] == value[v]) {
      AfterLiteral(pattern, value, p, v, star, resume);
      ScanComplete(pattern, value, p + 1, v + 1, star, resume);
    } else {
      AfterMismatch(pattern, value, p, v, star, resume);
      ScanComplete(pattern, value, star + 1, resume + 1, star, resume + 1);
    }
  }

  lemma ScanMeetsGlob(pattern: string, value: string)
    ensures Scan(pattern, value, 0, 0, -1, 0) ==> Glob(pattern, value)
    ensures '*' !in value && Glob(pattern, value) ==> Scan(pattern, value, 0, 0, -1, 0)
  {
    assert pattern[0..] == pattern && value[0..] == value;
    if Scan(pattern, value, 0, 0, -1, 0) { ScanSound(pattern, value, 0, 0, -1, 0); }
    if '*' !in value && Glob(pattern, value) { ScanComplete(pattern, value, 0, 0, -1, 0); }
  }

  // ---- the values on which the matcher is right for every pattern ----

  lemma {:induction false} PrefixConsumed(prefix: string, pattern: string, rest: string, value: string, p: nat)
    requires p <= |prefix| && pattern == prefix + rest && prefix <= value
    requires Scan(pattern, value, p, p, -1, 0)
    ensures Scan(pattern, value, |prefix|, |prefix|, -1, 0)
    decreases |prefix| - p
  {
    if p < |prefix| {
      assert pattern[p] == value[p];
      PrefixConsumed(prefix, pattern, rest, value, p + 1);
    }
  }

  /** With no star ahead and none behind, the matcher needs equal lengths. */
  lemma {:induction false} NoStarNeedsEqualLength(pattern: string, value: string, p: nat, v: nat)
    requires p <= |pattern| && v <= |value| && '*' !in pattern[p..]
    requires Scan(pattern, value, p, v, -1, 0)
    ensures |pattern| - p == |value| - v
    decreases |value| - v
  {
    var ahead := pattern[p..];
    var next := if ahead == "" then '?' else ahead[0];
    if v < |value| {
      assert pattern[p + 1..] == ahead[1..];
      NoStarNeedsEqualLength(pattern, value, p + 1, v + 1);
    }
  }

  lemma {:induction false} GlobItself(text: string)
    ensures Glob(text, text)
  {
    if text != "" { GlobItself(text[1..]); }
  }

  lemma {:induction false} GlobAfter(prefix: string, pattern: string, value: string)
    requires Glob(pattern, value)
    ensures Glob(prefix + pattern, prefix + value)
  {
    if prefix == "" {
      assert prefix + pattern == pattern && prefix + value == value;
    } else {
      GlobAfter(prefix[1..], pattern, value);
      assert (prefix + pattern)[1..] == prefix[1..] + pattern;
      assert (prefix + value)[1..] == prefix[1..] + value;
    }
  }

  function LastStar(value: string): (i: nat)
    requires '*' in value
    ensures i < |value| && value[i] == '*' && '*' !in value[i + 1..]
  {
    if value[|value| - 1] == '*' then |value| - 1
    else
      assert value == value[..|value| - 1] + [value[|value| - 1]];
      var i := LastStar(value[..|value| - 1]);
      assert value[i + 1..] == value[..|value| - 1][i + 1..] + [value[|value| - 1]];
      i
  }

  /** A value holding a star has a pattern that describes it and is refused. */
  lemma MatcherMisses(value: string) returns (pattern: string)
    requires '*' in value
    ensures Glob(pattern, value) && !Scan(pattern, value, 0, 0, -1, 0)
  {
    var i := LastStar(value);
    var prefix, post := value[..i + 1], value[i + 1..];
    pattern := prefix + ("?" + post);
    var tail := "*?" + post;
    assert pattern == value[..i] + tail && value == value[..i] + ("*" + post);
    GlobItself(post);
    assert Glob("?" + post, "*" + post) by {
      assert ("?" + post)[1..] == post && ("*" + post)[1..] == post;
    }
    assert tail[1..] == "?" + post && ("*" + post)[0..] == "*" + post;
    assert Glob(tail, "*" + post);
    GlobAfter(value[..i], tail, "*" + post);
    if Scan(pattern, value, 0, 0, -1, 0) {
      PrefixConsumed(prefix, pattern, "?" + post, value, 0);
      assert pattern[|prefix|..] == "?" + post;
      NoStarNeedsEqualLength(pattern, value, |prefix|, |prefix|);
      assert false;
    }
  }

  /** The matcher decides glob matching of a value under every pattern exactly
      when the value holds no star. */
  lemma MatcherExactIffNoStar(value: string)
    ensures (forall pattern :: Scan(pattern, value, 0, 0, -1, 0) == Glob(pattern, value)) <==> '*' !in value
  {
    if '*' in value {
      var pattern := MatcherMisses(value);
      assert Scan(pattern, value, 0, 0, -1, 0) != Glob(pattern, value);
    } else {
      forall pattern ensures Scan(pattern, value, 0, 0, -1, 0) == Glob(pattern, value) {
        ScanMeetsGlob(pattern, value);
      }
    }
  }
}
