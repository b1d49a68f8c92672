/** Byte strings; a char stands for one byte. */
module Text {

  function IndexOf(text: string, c: char): (index: int)
    ensures -1 <= index < |text|
    ensures index >= 0 ==> text[index] == c && c !in text[..index]
    ensures index < 0 ==> c !in text
  {
    if text == "" then -1
    else if text[0] == c then 0
    else
      var rest := IndexOf(text[1..], c);
      assert rest >= 0 ==> text[..rest + 1] == [text[0]] + text[1..][..rest];
      assert text == [text[0]] + text[1..];
      if rest < 0 then -1 else rest + 1
  }

  /** Slices of a slice, once and for all. */
  lemma Slice(text: string, i: nat, n: nat)
    requires i + n <= |text|
    ensures text[i..][n..] == text[i + n..]
    ensures text[i..][..n] == text[i..i + n]
    ensures i + n < |text| ==> text[i..][n] == text[i + n]
  {}

  predicate HasSuffix(text: string, suffix: string) {
    |suffix| <= |text| && text[|text| - |suffix|..] == suffix
  }

  function LowerByte(c: char): char {
    if 'A' <= c <= 'Z' then (c as int + 32) as char else c
  }

  /** ASCII lower case. */
  function Lower(text: string): (lower: string)
    ensures |lower| == |text|
    ensures forall i :: 0 <= i < |text| ==> lower[i] == LowerByte(text[i])
  {
    seq(|text|, i requires 0 <= i < |text| => LowerByte(text[i]))
  }

  predicate EqualFold(first: string, second: string) {
    Lower(first) == Lower(second)
  }

  /** Two texts fold together exactly when they differ in the case of letters alone. */
  lemma FoldIff(first: string, second: string)
    ensures EqualFold(first, second) <==>
              && |first| == |second|
              && forall i :: 0 <= i < |first| ==>
                   || first[i] == second[i]
                   || ('A' <= first[i] <= 'Z' && second[i] as int == first[i] as int + 32)
                   || ('A' <= second[i] <= 'Z' && first[i] as int == second[i] as int + 32)
  {
    forall i | 0 <= i < |first| && i < |second|
      ensures LowerByte(first[i]) == LowerByte(second[i]) <==>
                || first[i] == second[i]
                || ('A' <= first[i] <= 'Z' && second[i] as int == first[i] as int + 32)
                || ('A' <= second[i] <= 'Z' && first[i] as int == second[i] as int + 32)
    {}
    if EqualFold(first, second) {
      forall i | 0 <= i < |first| ensures LowerByte(first[i]) == LowerByte(second[i]) {
        assert Lower(first)[i] == Lower(second)[i];
      }
    }
  }

  lemma Regroup<T>(a: seq<T>, b: seq<T>, c: seq<T>)
    ensures a + b + c == a + (b + c)
  {}

  function Concat(parts: seq<string>): string {
    if parts == [] then "" else parts[0] + Concat(parts[1..])
  }

  lemma {:induction false} ConcatAppend(parts: seq<string>, more: seq<string>)
    ensures Concat(parts + more) == Concat(parts) + Concat(more)
  {
    if parts == [] {
      assert parts + more == more;
    } else {
      ConcatAppend(parts[1..], more);
      assert (parts + more)[1..] == parts[1..] + more;
      Regroup(parts[0], Concat(parts[1..]), Concat(more));
    }
  }

  /** No byte that ends a line. */
  predicate Plain(text: string) { forall i :: 0 <= i < |text| ==> text[i] != '\n' && text[i] != '\r' }

  lemma PlainConcat(front: string, back: string)
    requires Plain(front) && Plain(back)
    ensures Plain(front + back)
    ensures front != "" ==> (front + back)[0] == front[0]
  {}

  lemma Twice<T>(items: seq<T>, i: nat, j: nat)
    requires i < j < |items| && items[i] == items[j]
    ensures multiset(items)[items[i]] > 1
  {
    assert items == items[..i] + [items[i]] + items[i + 1..j] + [items[j]] + items[j + 1..];
  }

  lemma {:induction false} Once<T>(items: seq<T>, x: T)
    requires forall i, j :: 0 <= i < j < |items| ==> items[i] != items[j]
    ensures multiset(items)[x] <= 1
  {
    if items != [] {
      Once(items[..|items| - 1], x);
      assert items == items[..|items| - 1] + [items[|items| - 1]];
    }
  }
}
