/** A bounded buffer that watches for a marker. */
module Capture {
  // The bounded buffer that collects a child process's output and watches it for a
  // marker.  It keeps the first `limit` bytes and, across chunk boundaries, the last
  // |marker| - 1 bytes; the claim is that what it reports depends on the stream alone
  // and not on how the stream was cut into chunks.

  predicate OccursAt(text: string, part: string, i: int) {
    0 <= i <= |text| - |part| && text[i..i + |part|] == part
  }

  predicate Contains(text: string, part: string) {
    exists i | 0 <= i <= |text| :: OccursAt(text, part, i)
  }

  function First(text: string, n: nat): string {
    if |text| <= n then text else text[..n]
  }

  function Last(text: string, n: nat): string {
    if |text| <= n then text else text[|text| - n..]
  }

  class BoundedBuffer {
    const limit: nat
    const marker: string
    var buffer: string
    var tail: string
    var truncated: bool
    var found: bool
    /** Everything written so far. */
    ghost var stream: string
    /** An empty chunk arrived when no room was left; the code counts it as an overflow. */
    ghost var emptyWriteAtLimit: bool

    ghost predicate Valid()
      reads this
    {
      Keeps(stream) && Watches(stream)
    }

    ghost predicate Keeps(text: string)
      reads this
    {
      buffer == First(text, limit) && (truncated <==> |text| > limit || emptyWriteAtLimit)
    }

    ghost predicate Watches(text: string)
      reads this
    {
      && (found <==> marker != "" && Contains(text, marker))
      && (marker != "" && !found ==> tail == Last(text, |marker| - 1))
    }

    constructor (limit: nat, marker: string)
      ensures Valid() && stream == "" && !emptyWriteAtLimit
      ensures this.limit == limit && this.marker == marker
    {
      this.limit, this.marker := limit, marker;
      buffer, tail, truncated, found := "", "", false, false;
      stream, emptyWriteAtLimit := "", false;
    }

    /** The bounded half of a write. */
    method Keep(chunk: string)
      requires Keeps(stream)
      modifies `buffer, `truncated, `emptyWriteAtLimit
      ensures Keeps(stream + chunk)
      ensures emptyWriteAtLimit == (old(emptyWriteAtLimit) || (chunk == "" && |stream| >= limit))
    {
      var remaining := limit - |buffer|;
      if remaining <= 0 {
        truncated := true;
      } else if |chunk| > remaining {
        buffer := buffer + chunk[..remaining];
        truncated := true;
      } else {
        buffer := buffer + chunk;
      }
      emptyWriteAtLimit := emptyWriteAtLimit || (chunk == "" && |stream| >= limit);
    }

    /** The searching half of a write. */
    method Watch(chunk: string)
      requires Watches(stream)
      modifies `tail, `found
      ensures Watches(stream + chunk)
    {
      if |marker| > 0 { SearchStep(stream, chunk, marker); }
      if |marker| > 0 && !found {
        var window := tail + chunk;
        if Contains(window, marker) {
          found := true;
        }
        if |window| >= |marker| {
          tail := window[|window| - |marker| + 1..];
        } else {
          tail := window;
        }
      }
    }

    /** Returns how much was written and whether the process is told to stop. */
    method Write(chunk: string) returns (written: nat, stop: bool)
      requires Valid()
      modifies this
      ensures Valid() && stream == old(stream) + chunk
      ensures emptyWriteAtLimit == (old(emptyWriteAtLimit) || (chunk == "" && |old(stream)| >= limit))
      ensures written == |chunk|
      ensures stop <==> marker != "" && Contains(old(stream) + chunk, marker)
    {
      Keep(chunk);
      Watch(chunk);
      stream := stream + chunk;
      return |chunk|, found;
    }

    method Contents() returns (contents: string)
      requires Valid()
      ensures contents == First(stream, limit)
    {
      contents := buffer;
    }
  }

  lemma OccurrenceStays(before: string, chunk: string, marker: string)
    requires Contains(before, marker)
    ensures Contains(before + chunk, marker)
  {
    var i :| 0 <= i <= |before| && OccursAt(before, marker, i);
    assert (before + chunk)[i..i + |marker|] == before[i..i + |marker|];
    assert OccursAt(before + chunk, marker, i);
  }

  lemma OccursInSuffix(text: string, part: string, from: nat, i: int)
    requires from <= |text| && 0 <= i
    ensures OccursAt(text[from..], part, i) <==> OccursAt(text, part, from + i)
  {
    if from + i + |part| <= |text| {
      assert text[from..][i..i + |part|] == text[from + i..from + i + |part|];
    }
  }

  lemma OccursInPrefix(text: string, more: string, part: string, i: int)
    requires i + |part| <= |text|
    ensures OccursAt(text + more, part, i) <==> OccursAt(text, part, i)
  {
    if 0 <= i { assert (text + more)[i..i + |part|] == text[i..i + |part|]; }
  }

  lemma DropBeforeFirst(whole: string, dropped: nat, marker: string)
    requires dropped <= |whole|
    requires forall i :: OccursAt(whole, marker, i) ==> dropped <= i
    ensures Contains(whole[dropped..], marker) <==> Contains(whole, marker)
  {
    hide OccursAt;
    var window := whole[dropped..];
    if Contains(window, marker) {
      var i :| 0 <= i <= |window| && OccursAt(window, marker, i);
      OccursInSuffix(whole, marker, dropped, i);
      assert OccursAt(whole, marker, dropped + i);
    }
    if Contains(whole, marker) {
      var i :| 0 <= i <= |whole| && OccursAt(whole, marker, i);
      OccursInSuffix(whole, marker, dropped, i - dropped);
      assert OccursAt(window, marker, i - dropped);
    }
  }

  /** A marker that was not there before shows up in the new stream exactly when it
      shows up in the kept tail followed by the chunk. */
  lemma WindowSuffices(before: string, chunk: string, marker: string)
    requires marker != "" && !Contains(before, marker)
    ensures Contains(Last(before, |marker| - 1) + chunk, marker) <==> Contains(before + chunk, marker)
  {
    var whole := before + chunk;
    var dropped := |before| - |Last(before, |marker| - 1)|;
    assert whole[dropped..] == Last(before, |marker| - 1) + chunk;
    forall i | OccursAt(whole, marker, i) ensures dropped <= i {
      if i + |marker| <= |before| {
        OccursInPrefix(before, chunk, marker, i);
      }
    }
    DropBeforeFirst(whole, dropped, marker);
  }

  /** What one chunk does to the search: a marker once seen stays seen; one not yet
      seen is seen now exactly when the window holds it, and the next tail is an
      end of the window. */
  lemma SearchStep(before: string, chunk: string, marker: string)
    requires marker != ""
    ensures Contains(before, marker) ==> Contains(before + chunk, marker)
    ensures var window := Last(before, |marker| - 1) + chunk;
            && (!Contains(before, marker) ==> (Contains(window, marker) <==> Contains(before + chunk, marker)))
            && Last(before + chunk, |marker| - 1) == Last(window, |marker| - 1)
  {
    if Contains(before, marker) {
      OccurrenceStays(before, chunk, marker);
    } else {
      WindowSuffices(before, chunk, marker);
    }
  }

  function Flatten(chunks: seq<string>): string {
    if chunks == [] then "" else Flatten(chunks[..|chunks| - 1]) + chunks[|chunks| - 1]
  }

  /** A whole process: however its output is cut into non-empty chunks, the three
      reported facts are those of the joined stream. */
  method RunProcess(limit: nat, marker: string, chunks: seq<string>)
      returns (contents: string, truncated: bool, found: bool)
    requires "" !in chunks
    ensures contents == First(Flatten(chunks), limit)
    ensures truncated <==> |Flatten(chunks)| > limit
    ensures found <==> marker != "" && Contains(Flatten(chunks), marker)
  {
    var capture := new BoundedBuffer(limit, marker);
    for index := 0 to |chunks|
      invariant capture.Valid() && fresh(capture) && capture.limit == limit && capture.marker == marker
      invariant capture.stream == Flatten(chunks[..index]) && !capture.emptyWriteAtLimit
    {
      assert chunks[..index + 1][..index] == chunks[..index];
      assert chunks[index] in chunks;
      var _, _ := capture.Write(chunks[index]);
    }
    assert chunks[..|chunks|] == chunks;
    contents := capture.Contents();
    truncated, found := capture.truncated, capture.found;
  }
}
