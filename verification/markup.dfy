/** Text built from markup, and the reader used to check what the products
    service writes. A document is a sequence of pieces: a tag `<inner>` or
    character data. The reader finds the first `<name>`, takes the text up to
    the following `</name>`, and lists the markup a document contains. */
module Markup {
  import opened Http

  /** No angle bracket at all: text that cannot open or close a tag. */
  predicate Plain(s: string) {
    forall i | 0 <= i < |s| :: s[i] != '<' && s[i] != '>'
  }

  /** No `<`: character data in which no tag can start. */
  predicate NoOpen(s: string) {
    forall i | 0 <= i < |s| :: s[i] != '<'
  }

  function Open(name: string): string {
    "<" + name + ">"
  }

  function Close(name: string): string {
    Open("/" + name)
  }

  datatype Piece = Tag(inner: string) | Text(chars: string)

  function Render(p: Piece): string {
    match p
    case Tag(inner) => Open(inner)
    case Text(chars) => chars
  }

  function Flatten(ps: seq<Piece>): string {
    if |ps| == 0 then "" else Render(ps[0]) + Flatten(ps[1..])
  }

  /** A piece whose rendering starts a tag only where the piece is a tag. */
  predicate Clean(p: Piece) {
    match p
    case Tag(inner) => Plain(inner)
    case Text(chars) => NoOpen(chars)
  }

  predicate AllClean(ps: seq<Piece>) {
    forall i | 0 <= i < |ps| :: Clean(ps[i])
  }

  /** The tags of a piece sequence, in order. */
  function TagNames(ps: seq<Piece>): seq<string> {
    if |ps| == 0 then []
    else (if ps[0].Tag? then [ps[0].inner] else []) + TagNames(ps[1..])
  }

  // ---------------------------------------------------------------------
  // Searching

  /** `pat` starts at index `i` of `s`. */
  predicate OccursAt(s: string, pat: string, i: int) {
    && 0 <= i && i + |pat| <= |s|
    && MatchFrom(s, pat, i, 0)
  }

  predicate MatchFrom(s: string, pat: string, i: int, k: nat)
    requires 0 <= i && i + |pat| <= |s|
    decreases |pat| - k
  {
    k >= |pat| || (s[i + k] == pat[k] && MatchFrom(s, pat, i, k + 1))
  }

  function Shift(r: Option<nat>, n: nat): Option<nat> {
    match r
    case None => None
    case Some(k) => Some(k + n)
  }

  /** The first index at or after `from` where `pat` starts. */
  function IndexFrom(s: string, pat: string, from: nat): (r: Option<nat>)
    ensures r.Some? ==> from <= r.value && OccursAt(s, pat, r.value)
    decreases |s| - from
  {
    if |s| < from + |pat| then None
    else if OccursAt(s, pat, from) then Some(from)
    else IndexFrom(s, pat, from + 1)
  }

  /** The index found is the first occurrence at or after `from`, and no
      index means no occurrence there at all. */
  lemma {:induction false} IndexFromFirst(s: string, pat: string, from: nat)
    ensures var r := IndexFrom(s, pat, from);
            && (r.Some? ==> forall j :: from <= j < r.value ==> !OccursAt(s, pat, j))
            && (r.None? ==> forall j :: from <= j ==> !OccursAt(s, pat, j))
    decreases |s| - from
  {
    if |s| >= from + |pat| && !OccursAt(s, pat, from) {
      IndexFromFirst(s, pat, from + 1);
    }
  }

  /** Index of the first occurrence of `pat` in `s`, like Python's
      `str.find` but with no occurrence as `None`. */
  function IndexOf(s: string, pat: string): Option<nat> {
    IndexFrom(s, pat, 0)
  }

  /** The matcher compares every remaining character. */
  lemma {:induction false} MatchAll(s: string, pat: string, i: int, k: nat)
    requires 0 <= i && i + |pat| <= |s|
    ensures MatchFrom(s, pat, i, k) <==> forall m | k <= m < |pat| :: s[i + m] == pat[m]
    decreases |pat| - k
  {
    if k < |pat| {
      MatchAll(s, pat, i, k + 1);
    }
  }

  /** `pat` starts at `i` exactly when the characters there spell it. */
  lemma OccursChars(s: string, pat: string, i: int)
    ensures OccursAt(s, pat, i) <==> 0 <= i && i + |pat| <= |s| && forall m | 0 <= m < |pat| :: s[i + m] == pat[m]
  {
    if 0 <= i && i + |pat| <= |s| {
      MatchAll(s, pat, i, 0);
    }
  }

  /** A text in front moves an occurrence by its length. */
  lemma OccursShift(a: string, b: string, pat: string, k: nat)
    ensures OccursAt(b, pat, k) <==> OccursAt(a + b, pat, |a| + k)
  {
    OccursChars(b, pat, k);
    OccursChars(a + b, pat, |a| + k);
  }

  /** A text starts with itself. */
  lemma OccursPrefix(pat: string, rest: string)
    ensures OccursAt(pat + rest, pat, 0)
  {
    OccursChars(pat + rest, pat, 0);
  }

  lemma OccursAfterPrefix(a: string, b: string, pat: string)
    ensures forall k :: 0 <= k ==> (OccursAt(b, pat, k) <==> OccursAt(a + b, pat, |a| + k))
  {
    forall k | 0 <= k
      ensures OccursAt(b, pat, k) <==> OccursAt(a + b, pat, |a| + k)
    {
      OccursShift(a, b, pat, k);
    }
  }

  /** Searching `a + b` from `|a| + n` is searching `b` from `n`. */
  lemma {:induction false} IndexShift(a: string, b: string, pat: string, n: nat)
    ensures IndexFrom(a + b, pat, |a| + n) == Shift(IndexFrom(b, pat, n), |a|)
    decreases |b| - n
  {
    OccursShift(a, b, pat, n);
    if |b| >= n + |pat| && !OccursAt(b, pat, n) {
      IndexShift(a, b, pat, n + 1);
      assert |a| + n + 1 == |a| + (n + 1);
    }
  }

  /** Positions where `pat` does not start are passed over. */
  lemma {:induction false} IndexSkip(s: string, pat: string, from: nat, m: nat)
    requires from <= m
    requires forall j :: from <= j < m ==> !OccursAt(s, pat, j)
    ensures IndexFrom(s, pat, from) == IndexFrom(s, pat, m)
    decreases m - from
  {
    if from < m && |s| >= from + |pat| {
      IndexSkip(s, pat, from + 1, m);
    }
  }

  /** The first occurrence is the only one with none before it. */
  lemma FirstOccurrence(s: string, pat: string, k: nat)
    requires OccursAt(s, pat, k)
    requires forall j :: 0 <= j < k ==> !OccursAt(s, pat, j)
    ensures IndexOf(s, pat) == Some(k)
  {
    IndexSkip(s, pat, 0, k);
  }

  /** A prefix in which `pat` never starts only shifts the search. */
  lemma IndexOfPastPrefix(a: string, b: string, pat: string)
    requires forall i :: 0 <= i < |a| ==> !OccursAt(a + b, pat, i)
    ensures IndexOf(a + b, pat) == Shift(IndexOf(b, pat), |a|)
  {
    IndexSkip(a + b, pat, 0, |a|);
    IndexShift(a, b, pat, 0);
  }

  /** `pat` does not occur at `i` when one of its characters differs there. */
  lemma Mismatch(s: string, pat: string, i: nat, k: nat)
    requires k < |pat| && i + k < |s| && s[i + k] != pat[k]
    ensures !OccursAt(s, pat, i)
  {
    OccursChars(s, pat, i);
  }

  /** A single character that never occurs in `a` never starts there. */
  lemma CharNotInPrefix(a: string, b: string, c: char)
    requires forall i | 0 <= i < |a| :: a[i] != c
    ensures forall i :: 0 <= i < |a| ==> !OccursAt(a + b, [c], i)
  {
    forall i | 0 <= i < |a|
      ensures !OccursAt(a + b, [c], i)
    {
      Mismatch(a + b, [c], i, 0);
    }
  }

  /** In the rendering of a clean piece, `<name>` starts only where the
      piece is that very tag. */
  lemma TagOnlyAtItsPiece(p: Piece, rest: string, name: string)
    requires Clean(p) && Plain(name) && p != Tag(name)
    ensures forall i :: 0 <= i < |Render(p)| ==> !OccursAt(Render(p) + rest, Open(name), i)
  {
    var s := Render(p) + rest;
    var pat := Open(name);
    forall i | 0 <= i < |Render(p)|
      ensures !OccursAt(s, pat, i)
    {
      match p
      case Text(x) =>
        assert s[i] == x[i];
        Mismatch(s, pat, i, 0);
      case Tag(u) =>
        if i > 0 {
          assert s[i] == Open(u)[i];
          Mismatch(s, pat, i, 0);
        } else if |u| < |name| {
          assert s[|u| + 1] == '>' && pat[|u| + 1] == name[|u|];
          Mismatch(s, pat, 0, |u| + 1);
        } else if |u| > |name| {
          assert s[|name| + 1] == u[|name|] && pat[|name| + 1] == '>';
          Mismatch(s, pat, 0, |name| + 1);
        } else {
          var m :| 0 <= m < |u| && u[m] != name[m];
          assert s[m + 1] == u[m] && pat[m + 1] == name[m];
          Mismatch(s, pat, 0, m + 1);
        }
    }
  }

  lemma {:induction false} FlattenAppend(a: seq<Piece>, b: seq<Piece>)
    ensures Flatten(a + b) == Flatten(a) + Flatten(b)
    decreases |a|
  {
    if |a| == 0 {
      assert a + b == b;
      assert "" + Flatten(b) == Flatten(b);
    } else {
      TailAppend(a, b);
      FlattenAppend(a[1..], b);
      assert (a + b)[0] == a[0];
      Assoc(Render(a[0]), Flatten(a[1..]), Flatten(b));
    }
  }

  lemma AllCleanAppend(a: seq<Piece>, b: seq<Piece>)
    requires AllClean(a) && AllClean(b)
    ensures AllClean(a + b)
  {
    forall i | 0 <= i < |a + b|
      ensures Clean((a + b)[i])
    {
      if i >= |a| {
        assert (a + b)[i] == b[i - |a|];
      }
    }
  }

  /** `<name>` never starts inside clean pieces that do not include it. */
  lemma {:induction false} TagNotInPieces(pre: seq<Piece>, rest: string, name: string)
    requires AllClean(pre) && Plain(name) && Tag(name) !in pre
    ensures forall i :: 0 <= i < |Flatten(pre)| ==> !OccursAt(Flatten(pre) + rest, Open(name), i)
  {
    if |pre| > 0 {
      var r := Render(pre[0]);
      var tail := Flatten(pre[1..]) + rest;
      assert Flatten(pre) + rest == r + tail;
      TagOnlyAtItsPiece(pre[0], tail, name);
      TagNotInPieces(pre[1..], rest, name);
      OccursAfterPrefix(r, tail, Open(name));
      forall i | |r| <= i < |Flatten(pre)|
        ensures !OccursAt(r + tail, Open(name), i)
      {
        assert !OccursAt(tail, Open(name), i - |r|);
      }
    }
  }

  /** Searching for `<name>` passes over clean pieces that do not include it. */
  lemma IndexOfPastPieces(pre: seq<Piece>, rest: string, name: string)
    requires AllClean(pre) && Plain(name) && Tag(name) !in pre
    ensures IndexOf(Flatten(pre) + rest, Open(name))
            == Shift(IndexOf(rest, Open(name)), |Flatten(pre)|)
  {
    TagNotInPieces(pre, rest, name);
    IndexOfPastPrefix(Flatten(pre), rest, Open(name));
  }

  lemma PlainClosing(name: string)
    requires Plain(name)
    ensures Plain("/" + name)
  {
    assert forall i | 1 <= i < |"/" + name| :: ("/" + name)[i] == name[i - 1];
  }

  // ---------------------------------------------------------------------
  // Reading content between delimiters

  /** The text between the first `open` and the `close` that follows it. */
  function Between(s: string, open: string, close: string): Option<string> {
    match IndexFrom(s, open, 0)
    case None => None
    case Some(i) =>
      match IndexFrom(s, close, i + |open|)
      case None => None
      case Some(j) => Some(s[i + |open|..j])
  }

  /** Every text between an `open` and the next `close`, left to right,
      reading from index `from` on. */
  function AllFrom(s: string, open: string, close: string, from: nat): seq<string>
    requires |open| > 0 && |close| > 0
    decreases |s| - from
  {
    match IndexFrom(s, open, from)
    case None => []
    case Some(i) =>
      match IndexFrom(s, close, i + |open|)
      case None => []
      case Some(j) => [s[i + |open|..j]] + AllFrom(s, open, close, j + |close|)
  }

  function AllBetween(s: string, open: string, close: string): seq<string>
    requires |open| > 0 && |close| > 0
  {
    AllFrom(s, open, close, 0)
  }

  lemma SliceShift(a: string, b: string, x: nat, y: nat)
    requires x <= y <= |b|
    ensures (a + b)[|a| + x..|a| + y] == b[x..y]
  {
  }

  lemma AllStepNone(s: string, open: string, close: string, from: nat)
    requires |open| > 0 && |close| > 0
    requires IndexFrom(s, open, from).None? || IndexFrom(s, close, IndexFrom(s, open, from).value + |open|).None?
    ensures AllFrom(s, open, close, from) == []
  {
  }

  lemma AllStepSome(s: string, open: string, close: string, from: nat, i: nat, j: nat)
    requires |open| > 0 && |close| > 0
    requires IndexFrom(s, open, from) == Some(i) && IndexFrom(s, close, i + |open|) == Some(j)
    ensures i + |open| <= j && j + |close| <= |s| && from < j + |close|
    ensures AllFrom(s, open, close, from) == [s[i + |open|..j]] + AllFrom(s, open, close, j + |close|)
  {
  }

  /** Two readings that find the same first content and continue alike
      are alike. */
  lemma AllSame(s: string, t: string, open: string, close: string,
                m: nat, i': nat, j': nat, n: nat, i: nat, j: nat)
    requires |open| > 0 && |close| > 0
    requires IndexFrom(s, open, m) == Some(i') && IndexFrom(s, close, i' + |open|) == Some(j')
    requires IndexFrom(t, open, n) == Some(i) && IndexFrom(t, close, i + |open|) == Some(j)
    requires i' + |open| <= j' <= |s| && i + |open| <= j <= |t|
    requires s[i' + |open|..j'] == t[i + |open|..j]
    requires AllFrom(s, open, close, j' + |close|) == AllFrom(t, open, close, j + |close|)
    ensures AllFrom(s, open, close, m) == AllFrom(t, open, close, n)
  {
    AllStepSome(s, open, close, m, i', j');
    AllStepSome(t, open, close, n, i, j);
  }

  /** The first content of `b` from `n` is that of `a + b` from `|a| + n`. */
  lemma SpanShift(a: string, b: string, open: string, close: string, n: nat, i: nat, j: nat)
    requires IndexFrom(b, open, n) == Some(i) && IndexFrom(b, close, i + |open|) == Some(j)
    ensures IndexFrom(a + b, open, |a| + n) == Some(|a| + i)
    ensures IndexFrom(a + b, close, |a| + i + |open|) == Some(|a| + j)
    ensures |a| + i + |open| <= |a| + j <= |a + b| && i + |open| <= j <= |b|
    ensures (a + b)[|a| + i + |open|..|a| + j] == b[i + |open|..j]
  {
    IndexShift(a, b, open, n);
    IndexShift(a, b, close, i + |open|);
    assert |a| + i + |open| == |a| + (i + |open|);
    SliceShift(a, b, i + |open|, j);
  }

  lemma AllShiftEnd(a: string, b: string, open: string, close: string, n: nat)
    requires |open| > 0 && |close| > 0
    requires IndexFrom(b, open, n).None? || IndexFrom(b, close, IndexFrom(b, open, n).value + |open|).None?
    ensures AllFrom(a + b, open, close, |a| + n) == AllFrom(b, open, close, n)
  {
    IndexShift(a, b, open, n);
    if IndexFrom(b, open, n).Some? {
      var i := IndexFrom(b, open, n).value;
      IndexShift(a, b, close, i + |open|);
      assert |a| + i + |open| == |a| + (i + |open|);
    }
    AllStepNone(a + b, open, close, |a| + n);
    AllStepNone(b, open, close, n);
  }

  /** Reading `a + b` from `|a| + n` is reading `b` from `n`. */
  lemma {:induction false} AllShift(a: string, b: string, open: string, close: string, n: nat)
    requires |open| > 0 && |close| > 0
    ensures AllFrom(a + b, open, close, |a| + n) == AllFrom(b, open, close, n)
    decreases |b| - n
  {
    if IndexFrom(b, open, n).None? || IndexFrom(b, close, IndexFrom(b, open, n).value + |open|).None? {
      AllShiftEnd(a, b, open, close, n);
    } else {
      var i := IndexFrom(b, open, n).value;
      var j := IndexFrom(b, close, i + |open|).value;
      AllShift(a, b, open, close, j + |close|);
      SpanShift(a, b, open, close, n, i, j);
      assert |a| + j + |close| == |a| + (j + |close|);
      AllSame(a + b, b, open, close, |a| + n, |a| + i, |a| + j, n, i, j);
    }
  }

  /** Reading passes over positions where `open` does not start. */
  lemma AllSkip(s: string, open: string, close: string, from: nat, m: nat)
    requires |open| > 0 && |close| > 0 && from <= m
    requires forall j :: from <= j < m ==> !OccursAt(s, open, j)
    ensures AllFrom(s, open, close, from) == AllFrom(s, open, close, m)
  {
    IndexSkip(s, open, from, m);
  }

  /** The first element of `a + b` is that of `b`, when `open` never starts
      inside `a`. */
  lemma BetweenPastPrefixFirst(a: string, b: string, open: string, close: string)
    requires forall i :: 0 <= i < |a| ==> !OccursAt(a + b, open, i)
    ensures Between(a + b, open, close) == Between(b, open, close)
  {
    IndexOfPastPrefix(a, b, open);
    match IndexFrom(b, open, 0)
    case None =>
    case Some(i) =>
      IndexShift(a, b, close, i + |open|);
      assert |a| + i + |open| == |a| + (i + |open|);
      match IndexFrom(b, close, i + |open|)
      case None =>
      case Some(j) =>
        SliceShift(a, b, i + |open|, j);
  }

  /** A prefix in which `open` never starts changes nothing that is read. */
  lemma BetweenPastPrefix(a: string, b: string, open: string, close: string)
    requires |open| > 0 && |close| > 0
    requires forall i :: 0 <= i < |a| ==> !OccursAt(a + b, open, i)
    ensures Between(a + b, open, close) == Between(b, open, close)
    ensures AllBetween(a + b, open, close) == AllBetween(b, open, close)
  {
    BetweenPastPrefixFirst(a, b, open, close);
    AllSkip(a + b, open, close, 0, |a|);
    AllShift(a, b, open, close, 0);
  }

  /** The first occurrence of `pat` in `t` at `k` is the first one after
      `pre` in `pre + t`. */
  lemma FirstAfter(s: string, pre: string, t: string, pat: string, k: nat)
    requires s == pre + t
    requires OccursAt(t, pat, k)
    requires forall i :: 0 <= i < k ==> !OccursAt(t, pat, i)
    ensures IndexFrom(s, pat, |pre|) == Some(|pre| + k)
  {
    FirstOccurrence(t, pat, k);
    IndexShift(pre, t, pat, 0);
  }

  /** A text's first occurrence in a text it begins is at 0. */
  lemma IndexAtStart(s: string, pat: string, rest: string)
    requires s == pat + rest
    ensures IndexFrom(s, pat, 0) == Some(0)
  {
    OccursPrefix(pat, rest);
  }

  /** `close` first starts right after `x` in `x close rest`, when it does
      not start inside `x`. */
  lemma CloseEndsText(x: string, close: string, rest: string)
    requires forall i :: 0 <= i < |x| ==> !OccursAt(x + (close + rest), close, i)
    ensures OccursAt(x + (close + rest), close, |x|)
  {
    OccursPrefix(close, rest);
    OccursShift(x, close + rest, close, 0);
  }

  /** In `open x close rest`, the first `open` is at 0 and the first
      `close` after it ends `x`, when `close` does not start inside `x`. */
  lemma DelimitedSpan(open: string, x: string, close: string, rest: string)
    requires forall i :: 0 <= i < |x| ==> !OccursAt(x + (close + rest), close, i)
    ensures IndexFrom(open + x + close + rest, open, 0) == Some(0)
    ensures IndexFrom(open + x + close + rest, close, |open|) == Some(|open| + |x|)
  {
    var t := x + (close + rest);
    Regroup4(open, x, close, rest);
    IndexAtStart(open + x + close + rest, open, t);
    CloseEndsText(x, close, rest);
    FirstAfter(open + x + close + rest, open, t, close, |x|);
  }

  lemma DelimitedText(open: string, x: string, close: string, rest: string)
    ensures (open + x + close + rest)[|open|..|open| + |x|] == x
  {
    Regroup4(open, x, close, rest);
    assert (open + (x + (close + rest)))[|open|..|open| + |x|] == x;
  }

  /** `open x close rest`, where `close` does not start inside `x`, reads
      back `x` and then whatever `rest` holds. */
  lemma BetweenDelimited(open: string, x: string, close: string, rest: string)
    requires |open| > 0 && |close| > 0
    requires forall i :: 0 <= i < |x| ==> !OccursAt(x + (close + rest), close, i)
    ensures Between(open + x + close + rest, open, close) == Some(x)
    ensures AllBetween(open + x + close + rest, open, close) == [x] + AllBetween(rest, open, close)
  {
    DelimitedSpan(open, x, close, rest);
    DelimitedText(open, x, close, rest);
    BetweenAtStart(open + x + close + rest, open, close, x);
    DelimitedAll(open, x, close, rest);
  }

  /** A text that starts with `open` and whose first `close` after it ends
      `x` holds `x` first. */
  lemma BetweenAtStart(s: string, open: string, close: string, x: string)
    requires IndexFrom(s, open, 0) == Some(0) && IndexFrom(s, close, |open|) == Some(|open| + |x|)
    requires |open| + |x| <= |s| && s[|open|..|open| + |x|] == x
    ensures Between(s, open, close) == Some(x)
  {
  }

  lemma DelimitedAll(open: string, x: string, close: string, rest: string)
    requires |open| > 0 && |close| > 0
    requires IndexFrom(open + x + close + rest, open, 0) == Some(0)
    requires IndexFrom(open + x + close + rest, close, |open|) == Some(|open| + |x|)
    requires (open + x + close + rest)[|open|..|open| + |x|] == x
    ensures AllFrom(open + x + close + rest, open, close, 0) == [x] + AllFrom(rest, open, close, 0)
  {
    AllShift(open + x + close, rest, open, close, 0);
    AllAfterSpan(open + x + close + rest, rest, open, close, |open + x + close| + 0, x);
  }

  /** A first content `x` found at the start, followed by a reading that
      agrees with that of `t`. */
  lemma AllAfterSpan(s: string, t: string, open: string, close: string, m: nat, x: string)
    requires |open| > 0 && |close| > 0
    requires IndexFrom(s, open, 0) == Some(0) && IndexFrom(s, close, |open|) == Some(|open| + |x|)
    requires |open| + |x| <= |s| && s[|open|..|open| + |x|] == x
    requires m == |open| + |x| + |close|
    requires AllFrom(s, open, close, m) == AllFrom(t, open, close, 0)
    ensures AllFrom(s, open, close, 0) == [x] + AllFrom(t, open, close, 0)
  {
    AllStepSome(s, open, close, 0, 0, |open| + |x|);
  }

  // ---------------------------------------------------------------------
  // Element content and markup of piece documents

  /** The content of the first `<name>` element. */
  function Extract(s: string, name: string): Option<string> {
    Between(s, Open(name), Close(name))
  }

  /** The content of every `<name>` element, in document order. */
  function ExtractAll(s: string, name: string): seq<string> {
    AllBetween(s, Open(name), Close(name))
  }

  /** The text of every `<...>` in `s`, in order. */
  function Markups(s: string): seq<string> {
    AllBetween(s, "<", ">")
  }

  lemma ExtractPastPieces(pre: seq<Piece>, rest: string, name: string)
    requires AllClean(pre) && Plain(name) && Tag(name) !in pre
    ensures Extract(Flatten(pre) + rest, name) == Extract(rest, name)
    ensures ExtractAll(Flatten(pre) + rest, name) == ExtractAll(rest, name)
  {
    TagNotInPieces(pre, rest, name);
    BetweenPastPrefix(Flatten(pre), rest, Open(name), Close(name));
  }

  /** An element whose content is clean and holds no closing tag of its own
      name is read back exactly. */
  lemma ExtractElement(name: string, inner: seq<Piece>, rest: string)
    requires Plain(name) && AllClean(inner) && Tag("/" + name) !in inner
    ensures var s := Open(name) + Flatten(inner) + Close(name) + rest;
            && Extract(s, name) == Some(Flatten(inner))
            && ExtractAll(s, name) == [Flatten(inner)] + ExtractAll(rest, name)
  {
    PlainClosing(name);
    TagNotInPieces(inner, Close(name) + rest, "/" + name);
    BetweenDelimited(Open(name), Flatten(inner), Close(name), rest);
  }

  /** Clean pieces without `<name>` hold no `<name>` element. */
  lemma ExtractAllAbsent(ps: seq<Piece>, name: string)
    requires AllClean(ps) && Plain(name) && Tag(name) !in ps
    ensures ExtractAll(Flatten(ps), name) == []
  {
    ExtractPastPieces(ps, "", name);
    assert Flatten(ps) + "" == Flatten(ps);
    assert IndexFrom("", Open(name), 0) == None;
  }

  lemma MarkupsPastText(x: string, rest: string)
    requires NoOpen(x)
    ensures Markups(x + rest) == Markups(rest)
  {
    CharNotInPrefix(x, rest, '<');
    BetweenPastPrefix(x, rest, "<", ">");
  }

  lemma MarkupsOfTag(u: string, rest: string)
    requires Plain(u)
    ensures Markups(Open(u) + rest) == [u] + Markups(rest)
  {
    CharNotInPrefix(u, ">" + rest, '>');
    BetweenDelimited("<", u, ">", rest);
  }

  lemma MarkupsOfPiece(p: Piece, rest: string)
    requires Clean(p)
    ensures Markups(Render(p) + rest) == TagNames([p]) + Markups(rest)
  {
    match p
    case Text(x) =>
      MarkupsPastText(x, rest);
    case Tag(u) =>
      MarkupsOfTag(u, rest);
  }

  lemma FlattenCons(ps: seq<Piece>, rest: string)
    requires |ps| > 0
    ensures Flatten(ps) + rest == Render(ps[0]) + (Flatten(ps[1..]) + rest)
  {
  }

  lemma AllCleanTail(ps: seq<Piece>)
    requires |ps| > 0 && AllClean(ps)
    ensures Clean(ps[0]) && AllClean(ps[1..])
  {
    assert forall i | 0 <= i < |ps[1..]| :: ps[1..][i] == ps[i + 1];
  }

  lemma TagNamesCons(ps: seq<Piece>)
    requires |ps| > 0
    ensures TagNames(ps) == TagNames([ps[0]]) + TagNames(ps[1..])
  {
  }

  lemma MarkupsChain(a: string, b: string, c: string, x: seq<string>, y: seq<string>)
    requires Markups(a) == x + Markups(b)
    requires Markups(b) == y + Markups(c)
    ensures Markups(a) == x + y + Markups(c)
  {
  }

  /** The markup listed in a rendered clean document is exactly its tags. */
  lemma {:induction false} MarkupsOfPieces(ps: seq<Piece>, rest: string)
    requires AllClean(ps)
    ensures Markups(Flatten(ps) + rest) == TagNames(ps) + Markups(rest)
  {
    if |ps| > 0 {
      var tail := Flatten(ps[1..]) + rest;
      FlattenCons(ps, rest);
      AllCleanTail(ps);
      MarkupsOfPieces(ps[1..], rest);
      MarkupsOfPiece(ps[0], tail);
      MarkupsChain(Render(ps[0]) + tail, tail, rest, TagNames([ps[0]]), TagNames(ps[1..]));
      TagNamesCons(ps);
    } else {
      assert Flatten(ps) + rest == rest;
    }
  }

  lemma {:induction false} TagNamesAppend(a: seq<Piece>, b: seq<Piece>)
    ensures TagNames(a + b) == TagNames(a) + TagNames(b)
    decreases |a|
  {
    if |a| == 0 {
      assert a + b == b;
      assert [] + TagNames(b) == TagNames(b);
    } else {
      TailAppend(a, b);
      TagNamesAppend(a[1..], b);
      var head := if a[0].Tag? then [a[0].inner] else [];
      assert (a + b)[0] == a[0];
      Assoc(head, TagNames(a[1..]), TagNames(b));
    }
  }

  // ---------------------------------------------------------------------
  // Elements and joined sequences of pieces

  /** `<name>` inner `</name>`. */
  function Element(name: string, inner: seq<Piece>): seq<Piece> {
    [Tag(name)] + (inner + [Tag("/" + name)])
  }

  lemma ElementTagNames(name: string, inner: seq<Piece>)
    ensures TagNames(Element(name, inner)) == [name] + TagNames(inner) + ["/" + name]
  {
    TagNamesAppend([Tag(name)], inner + [Tag("/" + name)]);
    TagNamesAppend(inner, [Tag("/" + name)]);
  }

  lemma ElementClean(name: string, inner: seq<Piece>)
    requires Plain(name) && AllClean(inner)
    ensures AllClean(Element(name, inner))
  {
    PlainClosing(name);
    AllCleanAppend(inner, [Tag("/" + name)]);
    AllCleanAppend([Tag(name)], inner + [Tag("/" + name)]);
  }

  /** The element regrouped as its opening tag, then its content, then the
      rest. */
  lemma ElementSplit(pre: seq<Piece>, name: string, inner: seq<Piece>, post: seq<Piece>)
    ensures pre + (Element(name, inner) + post)
            == (pre + [Tag(name)]) + (inner + ([Tag("/" + name)] + post))
  {
    Assoc([Tag(name)], inner + [Tag("/" + name)], post);
    Assoc(inner, [Tag("/" + name)], post);
    Assoc(pre, [Tag(name)], inner + ([Tag("/" + name)] + post));
  }

  /** An element after clean pieces without its opening tag is read back,
      and the elements after it follow it in `ExtractAll`. */
  lemma ElementRead(pre: seq<Piece>, name: string, inner: seq<Piece>, post: seq<Piece>)
    requires AllClean(pre) && Plain(name) && Tag(name) !in pre
    requires AllClean(inner) && Tag("/" + name) !in inner
    ensures Extract(Flatten(pre + (Element(name, inner) + post)), name) == Some(Flatten(inner))
    ensures ExtractAll(Flatten(pre + (Element(name, inner) + post)), name)
            == [Flatten(inner)] + ExtractAll(Flatten(post), name)
  {
    var e := Element(name, inner);
    FlattenAppend(pre, e + post);
    FlattenAppend(e, post);
    FlattenElement(name, inner);
    ExtractPastPieces(pre, Flatten(e + post), name);
    ExtractElement(name, inner, Flatten(post));
  }

  lemma FlattenOne(p: Piece)
    ensures Flatten([p]) == Render(p)
  {
    assert [p][1..] == [];
  }

  /** An element renders as its tags around its content. */
  lemma FlattenElement(name: string, inner: seq<Piece>)
    ensures Flatten(Element(name, inner)) == Open(name) + Flatten(inner) + Close(name)
  {
    FlattenAppend([Tag(name)], inner + [Tag("/" + name)]);
    FlattenAppend(inner, [Tag("/" + name)]);
    FlattenOne(Tag(name));
    FlattenOne(Tag("/" + name));
    Assoc(Open(name), Flatten(inner), Close(name));
  }

  /** Python's `sep.join(parts)` on piece sequences. */
  function Join(parts: seq<seq<Piece>>, sep: seq<Piece>): seq<Piece>
    decreases |parts|
  {
    if |parts| == 0 then []
    else if |parts| == 1 then parts[0]
    else parts[0] + (sep + Join(parts[1..], sep))
  }

  /** What follows the first part of a join. */
  function AfterFirstPart(parts: seq<seq<Piece>>, sep: seq<Piece>, post: seq<Piece>): seq<Piece>
    requires |parts| > 0
  {
    if |parts| == 1 then post else sep + (Join(parts[1..], sep) + post)
  }

  lemma JoinSplit(parts: seq<seq<Piece>>, sep: seq<Piece>, post: seq<Piece>)
    requires |parts| > 0
    ensures Join(parts, sep) + post == parts[0] + AfterFirstPart(parts, sep, post)
  {
    if |parts| > 1 {
      Assoc(parts[0], sep + Join(parts[1..], sep), post);
      Assoc(sep, Join(parts[1..], sep), post);
    }
  }

  /** Parts that are each padding followed by a `<name>` element. */
  predicate PaddedElements(parts: seq<seq<Piece>>, pad: seq<Piece>, name: string, inners: seq<seq<Piece>>) {
    && |parts| == |inners|
    && (forall k :: 0 <= k < |parts| ==> parts[k] == pad + Element(name, inners[k]))
    && (forall k :: 0 <= k < |inners| ==> AllClean(inners[k]) && Tag("/" + name) !in inners[k])
  }

  lemma PaddedElementsTail(parts: seq<seq<Piece>>, pad: seq<Piece>, name: string, inners: seq<seq<Piece>>)
    requires PaddedElements(parts, pad, name, inners) && |parts| > 0
    ensures PaddedElements(parts[1..], pad, name, inners[1..])
  {
    forall k | 0 <= k < |parts| - 1
      ensures parts[1..][k] == pad + Element(name, inners[1..][k])
    {
      assert parts[1..][k] == parts[k + 1] && inners[1..][k] == inners[k + 1];
    }
    forall k | 0 <= k < |inners| - 1
      ensures AllClean(inners[1..][k]) && Tag("/" + name) !in inners[1..][k]
    {
      assert inners[1..][k] == inners[k + 1];
    }
  }

  function Contents(inners: seq<seq<Piece>>): seq<string> {
    seq(|inners|, k requires 0 <= k < |inners| => Flatten(inners[k]))
  }

  /** The first part of a join of padded elements is read first. */
  lemma FirstPartRead(parts: seq<seq<Piece>>, sep: seq<Piece>, pad: seq<Piece>,
                      name: string, inners: seq<seq<Piece>>, post: seq<Piece>)
    requires PaddedElements(parts, pad, name, inners) && Plain(name) && |parts| > 0
    requires AllClean(pad) && Tag(name) !in pad
    ensures ExtractAll(Flatten(Join(parts, sep) + post), name)
            == [Flatten(inners[0])] + ExtractAll(Flatten(AfterFirstPart(parts, sep, post)), name)
  {
    var after := AfterFirstPart(parts, sep, post);
    JoinSplit(parts, sep, post);
    assert parts[0] == pad + Element(name, inners[0]);
    Assoc(pad, Element(name, inners[0]), after);
    ElementRead(pad, name, inners[0], after);
  }

  /** After the first part, the separator is passed over. */
  lemma RestAfterSeparator(parts: seq<seq<Piece>>, sep: seq<Piece>, name: string, post: seq<Piece>)
    requires |parts| > 1 && AllClean(sep) && Tag(name) !in sep && Plain(name)
    ensures ExtractAll(Flatten(AfterFirstPart(parts, sep, post)), name)
            == ExtractAll(Flatten(Join(parts[1..], sep) + post), name)
  {
    FlattenAppend(sep, Join(parts[1..], sep) + post);
    ExtractPastPieces(sep, Flatten(Join(parts[1..], sep) + post), name);
  }

  lemma ContentsCons(inners: seq<seq<Piece>>)
    requires |inners| > 0
    ensures Contents(inners) == [Flatten(inners[0])] + Contents(inners[1..])
  {
  }

  /** Padded elements joined by a separator, followed by clean pieces
      without `<name>`, hold exactly those elements, in order. */
  lemma {:induction false} ExtractJoined(parts: seq<seq<Piece>>, sep: seq<Piece>, pad: seq<Piece>,
                                         name: string, inners: seq<seq<Piece>>, post: seq<Piece>)
    requires PaddedElements(parts, pad, name, inners) && Plain(name)
    requires AllClean(pad) && Tag(name) !in pad && AllClean(sep) && Tag(name) !in sep
    requires AllClean(post) && Tag(name) !in post
    ensures ExtractAll(Flatten(Join(parts, sep) + post), name) == Contents(inners)
    decreases |parts|
  {
    if |parts| == 0 {
      assert Join(parts, sep) + post == post;
      ExtractAllAbsent(post, name);
    } else {
      FirstPartRead(parts, sep, pad, name, inners, post);
      if |parts| == 1 {
        ExtractAllAbsent(post, name);
      } else {
        PaddedElementsTail(parts, pad, name, inners);
        ExtractJoined(parts[1..], sep, pad, name, inners[1..], post);
        RestAfterSeparator(parts, sep, name, post);
      }
      ContentsCons(inners);
    }
  }

  /** The text of an element holding one text piece. */
  lemma TextElementText(name: string, v: string, post: seq<Piece>)
    ensures Flatten(Element(name, [Text(v)]) + post) == Open(name) + v + Close(name) + Flatten(post)
  {
    FlattenAppend(Element(name, [Text(v)]), post);
    FlattenElement(name, [Text(v)]);
    FlattenOne(Text(v));
  }

  /** Text without `<` followed by a delimiter starting with `<` is cut at
      the delimiter. */
  lemma CutAtDelimiter(open: string, x: string, close: string, rest: string)
    requires |open| > 0 && |close| > 0 && close[0] == '<' && NoOpen(x)
    ensures Between(open + x + close + rest, open, close) == Some(x)
  {
    forall i | 0 <= i < |x|
      ensures !OccursAt(x + (close + rest), close, i)
    {
      assert (x + (close + rest))[i] == x[i];
      Mismatch(x + (close + rest), close, i, 0);
    }
    BetweenDelimited(open, x, close, rest);
  }

  /** An element whose text holds its own closing tag ends there. */
  lemma ElementCutShort(pre: seq<Piece>, name: string, x: string, y: string, post: seq<Piece>)
    requires AllClean(pre) && Plain(name) && Tag(name) !in pre && NoOpen(x)
    ensures Extract(Flatten(pre + (Element(name, [Text(x + Close(name) + y)]) + post)), name) == Some(x)
  {
    var o := Open(name);
    var c := Close(name);
    var r := Flatten(post);
    var element := Element(name, [Text(x + c + y)]);
    FlattenAppend(pre, element + post);
    TextElementText(name, x + c + y, post);
    Regroup(o, x, c, y, r);
    ExtractPastPieces(pre, o + x + c + (y + c + r), name);
    CutAtDelimiter(o, x, c, y + c + r);
  }

  // ---------------------------------------------------------------------
  // Markup of whole documents

  /** `n` copies of `x`, one after the other. */
  function Repeat<T>(x: seq<T>, n: nat): seq<T>
    decreases n
  {
    if n == 0 then [] else x + Repeat(x, n - 1)
  }

  /** A clean document lists exactly its tags, in order. */
  lemma DocumentMarkups(ps: seq<Piece>)
    requires AllClean(ps)
    ensures Markups(Flatten(ps)) == TagNames(ps)
  {
    MarkupsOfPieces(ps, "");
    assert Flatten(ps) + "" == Flatten(ps);
    assert IndexFrom("", "<", 0) == None;
  }

  lemma {:induction false} AllCleanJoin(parts: seq<seq<Piece>>, sep: seq<Piece>)
    requires AllClean(sep) && forall k :: 0 <= k < |parts| ==> AllClean(parts[k])
    ensures AllClean(Join(parts, sep))
    decreases |parts|
  {
    if |parts| > 1 {
      assert forall k :: 0 <= k < |parts[1..]| ==> parts[1..][k] == parts[k + 1];
      AllCleanJoin(parts[1..], sep);
      AllCleanAppend(sep, Join(parts[1..], sep));
      AllCleanAppend(parts[0], sep + Join(parts[1..], sep));
    }
  }

  /** Parts with the same tags, joined by a separator without tags, list
      those tags once per part. */
  lemma {:induction false} TagNamesJoin(parts: seq<seq<Piece>>, sep: seq<Piece>, t: seq<string>)
    requires TagNames(sep) == []
    requires forall k :: 0 <= k < |parts| ==> TagNames(parts[k]) == t
    ensures TagNames(Join(parts, sep)) == Repeat(t, |parts|)
    decreases |parts|
  {
    if |parts| == 1 {
      assert Repeat(t, 1) == t + [];
    } else if |parts| > 1 {
      assert forall k :: 0 <= k < |parts[1..]| ==> parts[1..][k] == parts[k + 1];
      TagNamesJoin(parts[1..], sep, t);
      TagNamesJoinStep(parts[0], sep, Join(parts[1..], sep), t, Repeat(t, |parts| - 1));
    }
  }

  lemma TagNamesJoinStep(p: seq<Piece>, sep: seq<Piece>, j: seq<Piece>, t: seq<string>, r: seq<string>)
    requires TagNames(p) == t && TagNames(sep) == [] && TagNames(j) == r
    ensures TagNames(p + (sep + j)) == t + r
  {
    TagNamesAppend(sep, j);
    TagNamesAppend(p, sep + j);
    assert [] + r == r;
  }

  /** Both facts about a join at once, stated over `s` so that callers
      need not unfold their own definition of the joined pieces. */
  lemma JoinStructure(s: seq<Piece>, parts: seq<seq<Piece>>, sep: seq<Piece>, t: seq<string>)
    requires s == Join(parts, sep)
    requires AllClean(sep) && TagNames(sep) == []
    requires forall k :: 0 <= k < |parts| ==> AllClean(parts[k]) && TagNames(parts[k]) == t
    ensures AllClean(s) && TagNames(s) == Repeat(t, |parts|)
  {
    AllCleanJoin(parts, sep);
    TagNamesJoin(parts, sep, t);
  }

  /** After clean pieces without `<name>`, the first `<name>` is the one
      that follows them. */
  lemma FirstTagAfterPieces(pre: seq<Piece>, name: string, rest: string)
    requires AllClean(pre) && Plain(name) && Tag(name) !in pre
    ensures IndexOf(Flatten(pre) + (Open(name) + rest), Open(name)) == Some(|Flatten(pre)|)
  {
    IndexOfPastPieces(pre, Open(name) + rest, name);
    OccursPrefix(Open(name), rest);
    FirstOccurrence(Open(name) + rest, Open(name), 0);
  }

  // ---------------------------------------------------------------------
  // Solver helpers: regroupings of concatenations that the proofs above
  // pass to the solver by name; they carry no property of the markup.

  lemma TailAppend<T>(a: seq<T>, b: seq<T>)
    requires |a| > 0
    ensures (a + b)[1..] == a[1..] + b
  {
  }

  lemma Assoc<T>(a: seq<T>, b: seq<T>, c: seq<T>)
    ensures (a + b) + c == a + (b + c)
  {
  }

  lemma Regroup4(o: string, x: string, c: string, r: string)
    ensures o + x + c + r == o + (x + (c + r))
  {
  }

  lemma Regroup(o: string, x: string, c: string, y: string, r: string)
    ensures o + (x + c + y) + c + r == o + x + c + (y + c + r)
  {
  }
}
