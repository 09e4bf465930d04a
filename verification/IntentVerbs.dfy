/**
 Intent verbs, after `ferridis-core/src/intent.rs`.
 */
module IntentVerbs {
  import opened Wrappers
  import opened Segments

  datatype VerbError = MissingVerb | BadCharacter | BadDashes

  predicate IsLower(c: char) { 'a' <= c <= 'z' }

  predicate IsUpper(c: char) { 'A' <= c <= 'Z' }

  predicate IsDigit(c: char) { '0' <= c <= '9' }

  predicate HasDoubleDash(s: string) {
    exists k :: 0 < k < |s| && s[k - 1] == '-' && s[k] == '-'
  }

  function Parse(s: string): (r: Result<string, VerbError>)
    ensures r.Ok? ==> r.value == s
  {
    if s == "" then Err(MissingVerb)
    else if exists k :: 0 <= k < |s| && !(IsLower(s[k]) || IsDigit(s[k]) || s[k] == '-') then Err(BadCharacter)
    else if s[0] == '-' || s[|s| - 1] == '-' || HasDoubleDash(s) then Err(BadDashes)
    else Ok(s)
  }

  /** A word of a verb. */
  predicate IsWord(w: string) {
    w != "" && forall k :: 0 <= k < |w| ==> IsLower(w[k]) || IsDigit(w[k])
  }

  predicate AllWords(ws: seq<string>) {
    forall k :: 0 <= k < |ws| ==> IsWord(ws[k])
  }

  lemma AllWordsCons(w: string, ws: seq<string>)
    ensures AllWords([w] + ws) <==> IsWord(w) && AllWords(ws)
  {
    assert ([w] + ws)[0] == w;
    assert forall k :: 0 <= k < |ws| ==> ([w] + ws)[k + 1] == ws[k];
  }

  predicate VerbChars(s: string) {
    forall k :: 0 <= k < |s| ==> IsLower(s[k]) || IsDigit(s[k]) || s[k] == '-'
  }

  lemma DoubleDashCons(head: string, tail: string)
    requires '-' !in head && head != "" && tail != ""
    ensures HasDoubleDash(head + ['-'] + tail) <==> tail[0] == '-' || HasDoubleDash(tail)
  {
    var s, n := head + ['-'] + tail, |head|;
    assert forall k :: 0 <= k < n ==> s[k] == head[k];
    assert s[n] == '-' && s[n + 1..] == tail;
    if k :| 0 < k < |tail| && tail[k - 1] == '-' && tail[k] == '-' {
      assert s[n + 1 + k - 1] == '-' && s[n + 1 + k] == '-';
    }
    if k :| 0 < k < |s| && s[k - 1] == '-' && s[k] == '-' {
      assert k > n;
      assert tail[k - n - 1] == '-';
      assert k > n + 1 ==> tail[k - n - 2] == '-';
    }
  }

  lemma VerbCharsConcat(a: string, b: string)
    ensures VerbChars(a + b) <==> VerbChars(a) && VerbChars(b)
  {
    assert forall k :: 0 <= k < |a| ==> (a + b)[k] == a[k];
    assert forall k :: 0 <= k < |b| ==> (a + b)[|a| + k] == b[k];
  }

  lemma ParseCons(head: string, tail: string)
    requires '-' !in head
    ensures Parse(head + ['-'] + tail).Ok? <==> IsWord(head) && Parse(tail).Ok?
  {
    var s := head + ['-'] + tail;
    VerbCharsConcat(head + ['-'], tail);
    VerbCharsConcat(head, ['-']);
    assert s[|s| - 1] == if tail == "" then '-' else tail[|tail| - 1];
    assert s[0] == if head == "" then '-' else head[0];
    if head != "" && tail != "" {
      DoubleDashCons(head, tail);
    }
  }

  /** The verbs are the non-empty lists of words, with a dash between neighbours. */
  lemma {:induction false} ParsesIffWords(s: string)
    ensures Parse(s).Ok? <==> AllWords(Split(s, '-'))
    decreases |s|
  {
    if '-' in s {
      var head, tail := Cut(s, '-');
      Assoc([head], Complete(tail, '-'), [Rest(tail, '-')]);
      AllWordsCons(head, Split(tail, '-'));
      ParseCons(head, tail);
      ParsesIffWords(tail);
    } else {
      CompleteNone(s, '-');
      assert Split(s, '-')[0] == s;
    }
  }

  /** Every refusal: nothing at all, a character that no verb has, or a dash that is not between words. */
  lemma Refusals(s: string)
    ensures Parse(s) == Err(MissingVerb) <==> s == ""
    ensures Parse(s) == Err(BadCharacter) <==> exists c :: c in s && !('a' <= c <= 'z' || '0' <= c <= '9' || c == '-')
    ensures Parse(s) == Err(BadDashes) <==>
      (forall c :: c in s ==> 'a' <= c <= 'z' || '0' <= c <= '9' || c == '-') && s != "" && "" in Split(s, '-')
  {
    if exists c :: c in s && !('a' <= c <= 'z' || '0' <= c <= '9' || c == '-') {
      var c :| c in s && !('a' <= c <= 'z' || '0' <= c <= '9' || c == '-');
      var k :| 0 <= k < |s| && s[k] == c;
    } else {
      assert forall k :: 0 <= k < |s| ==> s[k] in s;
      ParsesIffWords(s);
      PiecesAreVerbChars(s);
      var pieces := Split(s, '-');
      if "" in pieces {
        var k :| 0 <= k < |pieces| && pieces[k] == "";
        assert !IsWord(pieces[k]);
      } else {
        forall k | 0 <= k < |pieces|
          ensures IsWord(pieces[k])
        {
          assert pieces[k] in pieces;
        }
      }
    }
  }

  /** The pieces between dashes have only letters and figures. */
  lemma {:induction false} PiecesAreVerbChars(s: string)
    requires VerbChars(s)
    ensures forall p, k :: p in Split(s, '-') && 0 <= k < |p| ==> IsLower(p[k]) || IsDigit(p[k])
    decreases |s|
  {
    if '-' in s {
      var head, tail := Cut(s, '-');
      Assoc([head], Complete(tail, '-'), [Rest(tail, '-')]);
      VerbCharsConcat(head + ['-'], tail);
      VerbCharsConcat(head, ['-']);
      PiecesAreVerbChars(tail);
      assert Split(s, '-') == [head] + Split(tail, '-');
    } else {
      CompleteNone(s, '-');
      assert Split(s, '-') == [s];
    }
  }
}
