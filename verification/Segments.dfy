/** Text cut at a delimiter, and the last place a character occurs. */
module Segments {
  import opened OdbcTypes

  predicate Free(s: string, c: char) {
    forall i | 0 <= i < |s| :: s[i] != c
  }

  function Split(s: string, delimiter: char): (segments: seq<string>)
    ensures segments != []
  {
    if s == "" then [""]
    else
      var rest := Split(s[1..], delimiter);
      if s[0] == delimiter then [""] + rest else [[s[0]] + rest[0]] + rest[1..]
  }

  function Join(segments: seq<string>, delimiter: char): string
    requires segments != []
  {
    if |segments| == 1 then segments[0]
    else segments[0] + [delimiter] + Join(segments[1..], delimiter)
  }

  function LastIndex(s: string, c: char): (index: Option<nat>)
    ensures index.Some? ==> index.value < |s| && s[index.value] == c
  {
    if s == "" then None
    else if s[|s| - 1] == c then Some(|s| - 1)
    else LastIndex(s[..|s| - 1], c)
  }

  lemma {:induction false} NoneAfterLast(s: string, c: char)
    ensures LastIndex(s, c).None? ==> Free(s, c)
    ensures LastIndex(s, c).Some? ==> Free(s[LastIndex(s, c).value + 1..], c)
  {
    if s != "" && s[|s| - 1] != c {
      var front := s[..|s| - 1];
      NoneAfterLast(front, c);
      var index := LastIndex(s, c);
      if index.Some? {
        assert s[index.value + 1..] == front[index.value + 1..] + [s[|s| - 1]];
      } else {
        assert s == front + [s[|s| - 1]];
      }
    }
  }

  /** The last place in a text whose tail holds it is that of the tail. */
  lemma {:induction false} LastIndexOfTail(s: string, c: char, begin: nat, e: nat)
    requires begin <= e < |s| && LastIndex(s, c) == Some(e)
    ensures LastIndex(s[begin..], c) == Some(e - begin)
  {
    if s[|s| - 1] != c {
      LastIndexOfTail(s[..|s| - 1], c, begin, e);
      assert s[begin..][..|s| - begin - 1] == s[..|s| - 1][begin..];
    }
  }

  lemma {:induction false} NoIndexInTail(s: string, c: char, begin: nat)
    requires begin <= |s| && (LastIndex(s, c).Some? ==> LastIndex(s, c).value < begin)
    ensures LastIndex(s[begin..], c) == None
  {
    if begin < |s| {
      NoIndexInTail(s[..|s| - 1], c, begin);
      assert s[begin..][..|s| - begin - 1] == s[..|s| - 1][begin..];
    }
  }

  lemma {:induction false} LastIndexBefore(head: string, c: char, tail: string)
    requires Free(tail, c)
    ensures LastIndex(head + [c] + tail, c) == Some(|head|)
    decreases |tail|
  {
    var s := head + [c] + tail;
    if tail != "" {
      LastIndexBefore(head, c, tail[..|tail| - 1]);
      assert s[..|s| - 1] == head + [c] + tail[..|tail| - 1];
    }
  }

  lemma {:induction false} SplitWhole(s: string, delimiter: char)
    requires Free(s, delimiter)
    ensures Split(s, delimiter) == [s]
  {
    if s != "" {
      SplitWhole(s[1..], delimiter);
      assert [s[0]] + s[1..] == s;
    }
  }

  lemma {:induction false} SplitFirst(head: string, delimiter: char, tail: string)
    requires Free(head, delimiter)
    ensures Split(head + [delimiter] + tail, delimiter) == [head] + Split(tail, delimiter)
  {
    var s := head + [delimiter] + tail;
    if head == "" {
      assert s[1..] == tail;
    } else {
      SplitFirst(head[1..], delimiter, tail);
      assert s[1..] == head[1..] + [delimiter] + tail;
      assert [head[0]] + head[1..] == head;
    }
  }

  lemma {:induction false} SplitLast(head: string, delimiter: char, tail: string)
    requires Free(tail, delimiter)
    ensures Split(head + [delimiter] + tail, delimiter) == Split(head, delimiter) + [tail]
  {
    var s := head + [delimiter] + tail;
    if head == "" {
      assert s[1..] == tail;
      SplitWhole(tail, delimiter);
    } else {
      SplitLast(head[1..], delimiter, tail);
      assert s[1..] == head[1..] + [delimiter] + tail;
    }
  }

  /** Splitting loses nothing: the segments hold no delimiter, and joining them gives the text back. */
  lemma {:induction false} SplitJoins(s: string, delimiter: char)
    ensures Join(Split(s, delimiter), delimiter) == s
    ensures forall i | 0 <= i < |Split(s, delimiter)| :: Free(Split(s, delimiter)[i], delimiter)
  {
    if s != "" {
      SplitJoins(s[1..], delimiter);
      var rest := Split(s[1..], delimiter);
      assert s == [s[0]] + s[1..];
      if s[0] == delimiter {
        assert ([""] + rest)[1..] == rest;
      } else {
        var all := [[s[0]] + rest[0]] + rest[1..];
        assert all[1..] == rest[1..];
      }
    }
  }

  lemma {:induction false} JoinSplits(segments: seq<string>, delimiter: char)
    requires segments != [] && forall i | 0 <= i < |segments| :: Free(segments[i], delimiter)
    ensures Split(Join(segments, delimiter), delimiter) == segments
  {
    if |segments| == 1 {
      SplitWhole(segments[0], delimiter);
      assert segments == [segments[0]];
    } else {
      JoinSplits(segments[1..], delimiter);
      SplitFirst(segments[0], delimiter, Join(segments[1..], delimiter));
    }
  }
}
