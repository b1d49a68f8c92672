/** Names of groups. */
module Names {
  // Group names: slash-separated directory paths, their hierarchy, and the order the
  // compiler and the generated region both rest on.

  import opened Results
  import opened Text

  // ---- segments ----

  function Segments(name: string): (segments: seq<string>)
    ensures segments != []
    decreases |name|
  {
    var i := IndexOf(name, '/');
    if i < 0 then [name] else [name[..i]] + Segments(name[i + 1..])
  }

  function GroupDepth(name: string): nat { if name == "" then 0 else |Segments(name)| }

  function Slashes(name: string): nat {
    if name == "" then 0 else Slashes(name[1..]) + if name[0] == '/' then 1 else 0
  }

  lemma {:induction false} SlashesAppend(front: string, back: string)
    ensures Slashes(front + back) == Slashes(front) + Slashes(back)
  {
    if front == "" {
      assert front + back == back;
    } else {
      assert (front + back)[1..] == front[1..] + back;
      SlashesAppend(front[1..], back);
    }
  }

  lemma {:induction false} NoSlashes(name: string)
    requires '/' !in name
    ensures Slashes(name) == 0
  {
    if name != "" { NoSlashes(name[1..]); }
  }

  lemma {:induction false} DepthCountsSlashes(name: string)
    ensures |Segments(name)| == Slashes(name) + 1
    decreases |name|
  {
    var i := IndexOf(name, '/');
    if i < 0 {
      NoSlashes(name);
    } else {
      DepthCountsSlashes(name[i + 1..]);
      NoSlashes(name[..i]);
      assert name == name[..i] + ("/" + name[i + 1..]);
      SlashesAppend(name[..i], "/" + name[i + 1..]);
      assert ("/" + name[i + 1..])[1..] == name[i + 1..];
    }
  }

  // ---- which names are admitted ----

  const MaxGroupSegments: nat := 6
  const MaxSegmentBytes: nat := 64

  const ReservedNames: set<string> := {"sshc", "config", "known_hosts", "known_hosts2", "authorized_keys",
                                       "authorized_keys2", "environment", "rc", "connections", "keys"}

  predicate SegmentByte(c: char) {
    'A' <= c <= 'Z' || 'a' <= c <= 'z' || '0' <= c <= '9' || c == '.' || c == '-' || c == '_'
  }

  predicate ValidSegment(segment: string) {
    && segment != "" && |segment| <= MaxSegmentBytes && segment[0] != '.'
    && Lower(segment) !in ReservedNames
    && forall i :: 0 <= i < |segment| ==> SegmentByte(segment[i])
  }

  predicate ValidName(name: string) {
    && |Segments(name)| <= MaxGroupSegments
    && forall i :: 0 <= i < |Segments(name)| ==> ValidSegment(Segments(name)[i])
  }

  method ValidateGroupSegment(segment: string) returns (ok: bool)
    ensures ok == ValidSegment(segment)
  {
    if segment == "" || |segment| > MaxSegmentBytes { return false; }
    if segment == "." || segment == ".." || segment[0] == '.' { return false; }
    if Lower(segment) in ReservedNames { return false; }
    for index := 0 to |segment|
      invariant forall i :: 0 <= i < index ==> SegmentByte(segment[i])
    {
      if !SegmentByte(segment[index]) { return false; }
    }
    return true;
  }

  method ValidateGroupName(name: string) returns (ok: bool)
    ensures ok == ValidName(name)
  {
    if name == "" || '\0' in name {
      ValidBytes(name);
      return false;
    }
    var segments := Segments(name);
    if |segments| > MaxGroupSegments { return false; }
    for index := 0 to |segments|
      invariant forall i :: 0 <= i < index ==> ValidSegment(segments[i])
    {
      var good := ValidateGroupSegment(segments[index]);
      if !good { return false; }
    }
    return true;
  }

  predicate NameByte(c: char) { SegmentByte(c) || c == '/' }

  predicate NameBytes(text: string) { forall i :: 0 <= i < |text| ==> NameByte(text[i]) }

  lemma JoinBytes(front: string, rest: string)
    requires NameBytes(front) && NameBytes(rest)
    ensures NameBytes(front + "/" + rest)
  {}

  lemma OneSegment(segment: string)
    requires ValidSegment(segment)
    ensures NameBytes(segment) && segment != "" && segment[0] != '/' && segment[|segment| - 1] != '/'
  {}

  lemma {:induction false} SegmentBytes(name: string)
    requires forall i :: 0 <= i < |Segments(name)| ==> ValidSegment(Segments(name)[i])
    ensures NameBytes(name) && name != "" && name[0] != '/' && name[|name| - 1] != '/'
    decreases |name|
  {
    hide ValidSegment, NameBytes;
    var k := IndexOf(name, '/');
    OneSegment(Segments(name)[0]);
    if k >= 0 {
      var rest := name[k + 1..];
      assert Segments(name)[1..] == Segments(rest);
      forall i | 0 <= i < |Segments(rest)| ensures ValidSegment(Segments(rest)[i]) {
        assert Segments(rest)[i] == Segments(name)[i + 1];
      }
      SegmentBytes(rest);
      JoinBytes(name[..k], rest);
      assert name == name[..k] + "/" + rest;
    }
  }

  /** An admitted name holds no byte that a configuration file would read otherwise. */
  lemma ValidBytes(name: string)
    ensures ValidName(name) ==> name != "" && name[0] != '/' && name[|name| - 1] != '/'
    ensures ValidName(name) ==> NameBytes(name) && '\0' !in name
  {
    if ValidName(name) { SegmentBytes(name); }
  }

  /** A directory name that a group may have. */
  predicate GoodPart(part: string) {
    && 1 <= |part| <= 64 && part[0] != '.'
    && (forall k :: 0 <= k < |part| ==>
          'A' <= part[k] <= 'Z' || 'a' <= part[k] <= 'z' || '0' <= part[k] <= '9' || part[k] in {'.', '-', '_'})
    && Lower(part) !in {"sshc", "config", "known_hosts", "known_hosts2", "authorized_keys", "authorized_keys2", "environment", "rc",
                        "connections", "keys"}
  }

  function SlashJoined(parts: seq<string>): string
    requires parts != []
  {
    if |parts| == 1 then parts[0] else parts[0] + "/" + SlashJoined(parts[1..])
  }

  lemma FirstSlash(name: string, n: nat)
    requires n < |name| && name[n] == '/' && '/' !in name[..n]
    ensures IndexOf(name, '/') == n
  {
    var k := IndexOf(name, '/');
    NoSlashWithin(name, k, n);
    NoSlashWithin(name, n, k);
  }

  lemma NoSlashWithin(name: string, m: int, n: int)
    ensures 0 <= m < n <= |name| && '/' !in name[..n] ==> name[m] != '/'
  {
    if 0 <= m < n <= |name| && '/' !in name[..n] { assert name[..n][m] in name[..n]; }
  }

  lemma SegmentsOfJoined(part: string, rest: string)
    requires '/' !in part
    ensures Segments(part + "/" + rest) == [part] + Segments(rest)
  {
    var name, k := part + "/" + rest, IndexOf(part + "/" + rest, '/');
    assert name[|part|] == '/' && name[..|part|] == part;
    FirstSlash(name, |part|);
    assert name[|part| + 1..] == rest;
  }

  lemma {:induction false} JoinedSegments(parts: seq<string>)
    requires parts != [] && forall i :: 0 <= i < |parts| ==> '/' !in parts[i]
    ensures Segments(SlashJoined(parts)) == parts
  {
    if |parts| > 1 {
      JoinedSegments(parts[1..]);
      SegmentsOfJoined(parts[0], SlashJoined(parts[1..]));
    }
  }

  /** Every name is its parts with slashes between them. */
  lemma {:induction false} NameJoins(name: string) returns (parts: seq<string>)
    ensures parts != [] && (forall i :: 0 <= i < |parts| ==> '/' !in parts[i]) && SlashJoined(parts) == name
    decreases |name|
  {
    var k := IndexOf(name, '/');
    if k < 0 {
      parts := [name];
    } else {
      var rest := NameJoins(name[k + 1..]);
      parts := [name[..k]] + rest;
      assert parts[1..] == rest;
      assert name == name[..k] + "/" + name[k + 1..];
    }
  }

  /** A group may have a name exactly when that has at most six parts and each may name a directory. */
  lemma ValidNameIff(parts: seq<string>)
    requires parts != [] && forall i :: 0 <= i < |parts| ==> '/' !in parts[i]
    ensures ValidName(SlashJoined(parts)) <==> |parts| <= 6 && forall i :: 0 <= i < |parts| ==> GoodPart(parts[i])
  {
    hide ValidSegment, GoodPart, SlashJoined, Segments;
    JoinedSegments(parts);
    forall i | 0 <= i < |parts| ensures ValidSegment(parts[i]) <==> GoodPart(parts[i]) { PartIff(parts[i]); }
  }

  lemma PartIff(part: string)
    ensures ValidSegment(part) <==> GoodPart(part)
  {
    hide Lower;
    if part != "" && GoodPart(part) {
      forall k | 0 <= k < |part| ensures SegmentByte(part[k]) {}
    }
    if ValidSegment(part) {
      forall k | 0 <= k < |part|
        ensures 'A' <= part[k] <= 'Z' || 'a' <= part[k] <= 'z' || '0' <= part[k] <= '9' || part[k] in {'.', '-', '_'}
      {
        assert SegmentByte(part[k]);
      }
    }
  }

  // ---- the hierarchy ----

  predicate HasPrefix(text: string, prefix: string) { |prefix| <= |text| && text[..|prefix|] == prefix }

  /** The group itself or one it is nested in. */
  predicate Above(name: string, inner: string) { inner == name || HasPrefix(inner, name + "/") }

  function LastSlash(name: string): (i: int)
    ensures -1 <= i < |name|
    ensures i >= 0 ==> name[i] == '/'
    ensures forall k :: i < k < |name| ==> name[k] != '/'
  {
    if name == "" then -1
    else if name[|name| - 1] == '/' then |name| - 1
    else LastSlash(name[..|name| - 1])
  }

  function ParentGroupName(name: string): string {
    var i := LastSlash(name);
    if i < 0 then "" else name[..i]
  }

  lemma AboveParent(name: string, inner: string)
    requires Above(name, inner) && name != inner
    ensures LastSlash(inner) >= 0 && Above(name, ParentGroupName(inner))
  {
    assert inner[|name|] == (name + "/")[|name|];
    var i := LastSlash(inner);
    if i == |name| {
      assert inner[..i] == (name + "/")[..i] == name;
    } else {
      assert inner[..i][..|name| + 1] == inner[..|name| + 1];
    }
  }

  lemma AboveDepth(name: string, inner: string)
    requires Above(name, inner) && name != inner && name != ""
    ensures GroupDepth(name) < GroupDepth(inner)
  {
    var rest := inner[|name| + 1..];
    assert inner == name + ("/" + rest);
    SlashesAppend(name, "/" + rest);
    assert ("/" + rest)[1..] == rest;
    DepthCountsSlashes(name);
    DepthCountsSlashes(inner);
  }

  // ---- the order ----

  predicate LexLess(first: string, second: string) {
    && second != ""
    && (first == "" || first[0] < second[0] || (first[0] == second[0] && LexLess(first[1..], second[1..])))
  }

  function OrderOf(order: map<string, int>, name: string): int { if name in order then order[name] else 0 }

  /** Deepest first, then by display order, then by name. */
  predicate Before(order: map<string, int>, first: string, second: string) {
    if GroupDepth(first) != GroupDepth(second) then GroupDepth(first) > GroupDepth(second)
    else if OrderOf(order, first) != OrderOf(order, second) then OrderOf(order, first) < OrderOf(order, second)
    else LexLess(first, second)
  }

  lemma {:induction false} LexTotal(a: string, b: string)
    ensures a == b || LexLess(a, b) || LexLess(b, a)
    ensures !(LexLess(a, b) && LexLess(b, a)) && !LexLess(a, a)
  {
    if a != "" && b != "" { LexTotal(a[1..], b[1..]); assert a == [a[0]] + a[1..] && b == [b[0]] + b[1..]; }
    if a != "" { LexTotal(a[1..], a[1..]); }
  }

  lemma {:induction false} LexTransitive(a: string, b: string, c: string)
    requires LexLess(a, b) && LexLess(b, c)
    ensures LexLess(a, c)
  {
    if a != "" && a[0] == b[0] == c[0] { LexTransitive(a[1..], b[1..], c[1..]); }
  }

  lemma BeforeTransitive(order: map<string, int>, a: string, b: string, c: string)
    requires Before(order, a, b) && Before(order, b, c)
    ensures Before(order, a, c)
  {
    hide GroupDepth;
    if GroupDepth(a) == GroupDepth(b) == GroupDepth(c) && OrderOf(order, a) == OrderOf(order, b) == OrderOf(order, c) {
      LexTransitive(a, b, c);
    }
  }

  predicate Sorted(order: map<string, int>, names: seq<string>) {
    forall i, j :: 0 <= i < j < |names| ==> names[i] == names[j] || Before(order, names[i], names[j])
  }

  function InsertName(order: map<string, int>, name: string, names: seq<string>): (r: seq<string>)
    ensures multiset(r) == multiset(names) + multiset{name}
  {
    if names != [] && Before(order, names[0], name) then
      assert names == [names[0]] + names[1..];
      [names[0]] + InsertName(order, name, names[1..])
    else [name] + names
  }

  /** The stable sort by that comparison. */
  function GroupNameOrder(names: seq<string>, order: map<string, int>): (r: seq<string>)
    ensures multiset(r) == multiset(names)
  {
    if names == [] then []
    else
      assert names == [names[0]] + names[1..];
      InsertName(order, names[0], GroupNameOrder(names[1..], order))
  }

  lemma {:induction false} InsertSorted(order: map<string, int>, name: string, names: seq<string>)
    requires Sorted(order, names)
    ensures Sorted(order, InsertName(order, name, names))
  {
    hide Before;
    var r := InsertName(order, name, names);
    if names != [] && Before(order, names[0], name) {
      InsertSorted(order, name, names[1..]);
      forall j | 0 < j < |r| ensures r[0] == r[j] || Before(order, r[0], r[j]) {
        assert r[j] in multiset(InsertName(order, name, names[1..]));
        assert r[j] == name || r[j] in multiset(names[1..]);
        assert r[j] != name ==> r[j] in names[1..];
      }
    } else {
      forall j | 0 < j < |r| ensures name == r[j] || Before(order, name, r[j]) {
        NotBefore(order, names[0], name);
        if name != names[0] && names[0] != names[j - 1] { BeforeTransitive(order, name, names[0], names[j - 1]); }
      }
    }
  }

  lemma NotBefore(order: map<string, int>, a: string, b: string)
    ensures a == b || Before(order, a, b) || Before(order, b, a)
  {
    LexTotal(a, b);
  }

  /** A declared list comes out with the same names, deepest groups first. */
  lemma {:induction false} OrderSorted(names: seq<string>, order: map<string, int>)
    ensures Sorted(order, GroupNameOrder(names, order))
  {
    if names != [] {
      OrderSorted(names[1..], order);
      InsertSorted(order, names[0], GroupNameOrder(names[1..], order));
    }
  }
}
