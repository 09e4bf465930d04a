/**
 Splitting a sequence at a separator.

 `Complete` lists the segments that a separator terminates and `Rest` is what
 follows the last separator. Lines, `/`-separated paths and URL segments are all
 instances.
 */
module Segments {

  function IndexOf<T(==)>(s: seq<T>, sep: T): (i: nat)
    ensures i <= |s|
    ensures forall k :: 0 <= k < i ==> s[k] != sep
    ensures i < |s| ==> s[i] == sep
  {
    if s == [] || s[0] == sep then 0 else 1 + IndexOf(s[1..], sep)
  }

  function Complete<T(==)>(s: seq<T>, sep: T): seq<seq<T>> {
    var i := IndexOf(s, sep);
    if i == |s| then [] else [s[..i]] + Complete(s[i + 1..], sep)
  }

  function Rest<T(==)>(s: seq<T>, sep: T): (r: seq<T>)
    ensures sep !in r
    ensures |r| <= |s|
  {
    var i := IndexOf(s, sep);
    if i == |s| then s else Rest(s[i + 1..], sep)
  }

  /** Every segment, the unterminated one included. */
  function Split<T(==)>(s: seq<T>, sep: T): seq<seq<T>> {
    Complete(s, sep) + [Rest(s, sep)]
  }

  /** Each segment followed by the separator. */
  function Terminate<T>(segments: seq<seq<T>>, sep: T): seq<T> {
    if segments == [] then [] else segments[0] + [sep] + Terminate(segments[1..], sep)
  }

  /** Segments with the separator between neighbours. */
  function Join<T>(segments: seq<seq<T>>, sep: T): seq<T> {
    if segments == [] then []
    else if |segments| == 1 then segments[0]
    else segments[0] + [sep] + Join(segments[1..], sep)
  }

  function Flatten<T>(parts: seq<seq<T>>): seq<T> {
    if parts == [] then [] else parts[0] + Flatten(parts[1..])
  }

  ghost predicate Separated<T>(segments: seq<seq<T>>, sep: T) {
    forall k :: 0 <= k < |segments| ==> sep !in segments[k]
  }

  /** The first segment of a concatenation is known once its separator is. */
  lemma IndexOfPrefix<T>(a: seq<T>, sep: T, b: seq<T>)
    requires sep !in a
    ensures IndexOf(a + [sep] + b, sep) == |a|
  {
    var s := a + [sep] + b;
    var i := IndexOf(s, sep);
    assert s[|a|] == sep;
    assert forall k :: 0 <= k < |a| ==> s[k] == a[k];
  }

  lemma CompleteUnfold<T>(a: seq<T>, sep: T, b: seq<T>)
    requires sep !in a
    ensures Complete(a + [sep] + b, sep) == [a] + Complete(b, sep)
    ensures Rest(a + [sep] + b, sep) == Rest(b, sep)
  {
    IndexOfPrefix(a, sep, b);
    var s := a + [sep] + b;
    assert s[..|a|] == a && s[|a| + 1..] == b;
  }

  lemma CompleteNone<T>(s: seq<T>, sep: T)
    requires sep !in s
    ensures Complete(s, sep) == [] && Rest(s, sep) == s
  {
  }

  /** The first separator cuts a sequence in two. */
  lemma Cut<T>(s: seq<T>, sep: T) returns (head: seq<T>, tail: seq<T>)
    requires sep in s
    ensures s == head + [sep] + tail && sep !in head
    ensures Complete(s, sep) == [head] + Complete(tail, sep)
    ensures Rest(s, sep) == Rest(tail, sep)
  {
    var i := IndexOf(s, sep);
    head, tail := s[..i], s[i + 1..];
    assert s == head + [sep] + tail;
  }

  lemma {:induction false} CompleteSeparated<T>(s: seq<T>, sep: T)
    ensures Separated(Complete(s, sep), sep)
    decreases |s|
  {
    if sep in s {
      var head, tail := Cut(s, sep);
      CompleteSeparated(tail, sep);
    }
  }

  /** Where the input is cut makes no difference to its segments. */
  lemma {:induction false} CompleteConcat<T>(a: seq<T>, b: seq<T>, sep: T)
    ensures Complete(a + b, sep) == Complete(a, sep) + Complete(Rest(a, sep) + b, sep)
    ensures Rest(a + b, sep) == Rest(Rest(a, sep) + b, sep)
    decreases |a|
  {
    if sep in a {
      var head, tail := Cut(a, sep);
      CompleteConcatStep(head, tail, b, sep);
      CompleteConcat(tail, b, sep);
      Assoc([head], Complete(tail, sep), Complete(Rest(tail, sep) + b, sep));
    } else {
      CompleteNone(a, sep);
    }
  }

  lemma CompleteConcatStep<T>(head: seq<T>, tail: seq<T>, b: seq<T>, sep: T)
    requires sep !in head
    ensures Complete(head + [sep] + tail + b, sep) == [head] + Complete(tail + b, sep)
    ensures Rest(head + [sep] + tail + b, sep) == Rest(tail + b, sep)
  {
    CompleteUnfold(head, sep, tail + b);
    Assoc(head + [sep], tail, b);
  }

  lemma {:induction false} CompleteTerminate<T>(segments: seq<seq<T>>, sep: T, b: seq<T>)
    requires Separated(segments, sep)
    ensures Complete(Terminate(segments, sep) + b, sep) == segments + Complete(b, sep)
    ensures Rest(Terminate(segments, sep) + b, sep) == Rest(b, sep)
  {
    if segments == [] {
      assert Terminate(segments, sep) + b == b;
    } else {
      var head, tail := segments[0], segments[1..];
      assert segments == [head] + tail;
      assert Separated(tail, sep);
      CompleteTerminate(tail, sep, b);
      CompleteConcatStep(head, Terminate(tail, sep), b, sep);
      Assoc([head], tail, Complete(b, sep));
    }
  }

  lemma {:induction false} TerminateConcat<T>(a: seq<seq<T>>, b: seq<seq<T>>, sep: T)
    ensures Terminate(a + b, sep) == Terminate(a, sep) + Terminate(b, sep)
  {
    if a == [] {
      assert a + b == b;
    } else {
      assert (a + b)[1..] == a[1..] + b;
      TerminateConcat(a[1..], b, sep);
    }
  }

  lemma {:induction false} SplitJoin<T>(segments: seq<seq<T>>, sep: T)
    requires segments != [] && Separated(segments, sep)
    ensures Split(Join(segments, sep), sep) == segments
  {
    if |segments| == 1 {
      CompleteNone(segments[0], sep);
    } else {
      assert Separated(segments[1..], sep);
      var more := Join(segments[1..], sep);
      CompleteUnfold(segments[0], sep, more);
      calc {
        Split(Join(segments, sep), sep);
        ([segments[0]] + Complete(more, sep)) + [Rest(more, sep)];
        [segments[0]] + Split(more, sep);
        { SplitJoin(segments[1..], sep); }
        [segments[0]] + segments[1..];
        segments;
      }
    }
  }

  lemma {:induction false} JoinSplit<T>(s: seq<T>, sep: T)
    ensures Join(Split(s, sep), sep) == s
    ensures Separated(Split(s, sep), sep)
    decreases |s|
  {
    if sep in s {
      var head, tail := Cut(s, sep);
      JoinSplit(tail, sep);
      Assoc([head], Complete(tail, sep), [Rest(tail, sep)]);
      assert ([head] + Split(tail, sep))[1..] == Split(tail, sep);
    } else {
      CompleteNone(s, sep);
    }
  }

  lemma {:induction false} JoinLast<T>(segments: seq<seq<T>>, last: seq<T>, sep: T)
    requires segments != []
    ensures Join(segments + [last], sep) == Join(segments, sep) + [sep] + last
  {
    if |segments| == 1 {
      assert (segments + [last])[1..] == [last];
    } else {
      var head, tail := segments[0], segments[1..];
      assert segments == [head] + tail && (segments + [last])[1..] == tail + [last];
      JoinLast(tail, last, sep);
      assert head + [sep] + (Join(tail, sep) + [sep] + last) == head + [sep] + Join(tail, sep) + [sep] + last;
    }
  }

  lemma Assoc<T>(a: seq<T>, b: seq<T>, c: seq<T>)
    ensures (a + b) + c == a + (b + c)
  {
  }

  lemma Regroup<T>(a: seq<T>, b: seq<T>, c: seq<T>, d: seq<T>)
    ensures a + (b + (c + d)) == a + b + c + d
  {
  }

  /** Cutting terminated segments short leaves complete at most all of them but the last. */
  lemma CompleteOfCut<T>(segments: seq<seq<T>>, sep: T, cut: seq<T>, lost: seq<T>)
    requires segments != [] && Separated(segments, sep)
    requires cut + lost == Terminate(segments, sep) && lost != []
    ensures Complete(cut, sep) <= segments[..|segments| - 1]
  {
    var more := Rest(cut, sep) + lost;
    CompleteTerminate(segments, sep, []);
    assert Terminate(segments, sep) + [] == cut + lost && segments + [] == segments;
    CompleteConcat(cut, lost, sep);
    TerminateEnds(segments, sep);
    assert more[|more| - 1] == lost[|lost| - 1] == (cut + lost)[|cut + lost| - 1];
    var head, tail := Cut(more, sep);
    assert segments == Complete(cut, sep) + ([head] + Complete(tail, sep));
  }

  lemma {:induction false} TerminateEnds<T>(segments: seq<seq<T>>, sep: T)
    requires segments != []
    ensures var t := Terminate(segments, sep); t != [] && t[|t| - 1] == sep
  {
    if |segments| > 1 {
      TerminateEnds(segments[1..], sep);
    } else {
      assert Terminate(segments[1..], sep) == [];
    }
  }
}
