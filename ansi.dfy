/**
 * Removal of ANSI control sequences from display text.
 *
 * A control sequence in the sense of section 5.4 of ECMA-48 (ISO/IEC 6429) is a
 * Control Sequence Introducer (the 8-bit character 0x9B, or ESC followed by '['),
 * then any number of parameter bytes 0x30-0x3F, then any number of intermediate
 * bytes 0x20-0x2F, then one final byte 0x40-0x7E.  The Python program removes every
 * such sequence with a regular-expression substitution; this module does the same with
 * a left-to-right scanner that cuts the text into pieces, each either one complete
 * control sequence or one character that is kept.
 */
module Ansi {
  import opened Wrappers

  const ESC: char := '\U{1B}'
  const CSI: char := '\U{9B}'

  predicate IsParameter(c: char) { '0' <= c <= '?' }
  predicate IsIntermediate(c: char) { ' ' <= c <= '/' }
  predicate IsFinal(c: char) { '@' <= c <= '~' }

  /** The two byte classes that may repeat inside a control sequence. */
  datatype ByteClass = Parameter | Intermediate

  predicate InClass(c: char, k: ByteClass) {
    match k
    case Parameter => IsParameter(c)
    case Intermediate => IsIntermediate(c)
  }

  /** The introducers: the 8-bit CSI, or ESC followed by '['. */
  predicate IsIntroducer(x: seq<char>) {
    x == [CSI] || x == [ESC, '[']
  }

  /**
   * t is one complete control sequence: t[..i] is an introducer, t[i..p] are
   * parameter bytes, t[p..|t|-1] are intermediate bytes and the last character
   * is a final byte.
   */
  predicate IsSplit(t: seq<char>, i: nat, p: nat) {
    0 < i <= p < |t| && IsIntroducer(t[..i])
    && (forall m :: i <= m < p ==> IsParameter(t[m]))
    && (forall m :: p <= m < |t| - 1 ==> IsIntermediate(t[m]))
    && IsFinal(t[|t| - 1])
  }

  ghost predicate IsControlSequence(t: seq<char>) {
    exists i: nat, p: nat :: IsSplit(t, i, p)
  }

  /** No control sequence is a prefix of u. */
  ghost predicate NoControlAt(u: seq<char>) {
    forall n :: 0 <= n <= |u| ==> !IsControlSequence(u[..n])
  }

  // ---------------------------------------------------------------------------
  // The scanner

  /** Length of the introducer at the head of s, 0 if there is none. */
  function IntroducerLength(s: seq<char>): (r: nat)
    ensures r <= |s|
  {
    if |s| >= 1 && s[0] == CSI then 1
    else if |s| >= 2 && s[0] == ESC && s[1] == '[' then 2
    else 0
  }

  /** IntroducerLength finds the introducer at the head, and there is one only if it finds it. */
  lemma IntroducerLengthSpec(s: seq<char>)
    ensures IntroducerLength(s) > 0 ==> IsIntroducer(s[..IntroducerLength(s)])
    ensures IntroducerLength(s) == 0 ==> forall i :: 0 < i <= |s| ==> !IsIntroducer(s[..i])
  {
    if IntroducerLength(s) == 0 {
      forall i | 0 < i <= |s| ensures !IsIntroducer(s[..i]) {
        assert s[..i][0] == s[0];
        if i >= 2 { assert s[..i][1] == s[1]; }
      }
    }
  }

  /** The end of the longest run of bytes of class k that starts at j. */
  function SkipRun(s: seq<char>, j: nat, k: ByteClass): (r: nat)
    requires j <= |s|
    ensures j <= r <= |s|
    decreases |s| - j
  {
    if j < |s| && InClass(s[j], k) then SkipRun(s, j + 1, k) else j
  }

  /** The run SkipRun skips is all of class k, and it stops only at the end or at a byte of another class. */
  lemma {:induction false} SkipRunSpec(s: seq<char>, j: nat, k: ByteClass)
    requires j <= |s|
    ensures forall m :: j <= m < SkipRun(s, j, k) ==> InClass(s[m], k)
    ensures SkipRun(s, j, k) == |s| || !InClass(s[SkipRun(s, j, k)], k)
    decreases |s| - j
  {
    if j < |s| && InClass(s[j], k) {
      SkipRunSpec(s, j + 1, k);
    }
  }

  /** The length of the control sequence at the head of s, if one starts there. */
  function MatchLength(s: seq<char>): (r: Option<nat>)
    ensures r.Some? ==> 2 <= r.value <= |s|
  {
    var i := IntroducerLength(s);
    if i == 0 then None
    else
      var q := SkipRun(s, SkipRun(s, i, Parameter), Intermediate);
      if q < |s| && IsFinal(s[q]) then Some(q + 1) else None
  }

  /** A run of class k ends exactly where the class first fails to hold. */
  lemma {:induction false} SkipRunIs(s: seq<char>, j: nat, k: ByteClass, r: nat)
    requires j <= r <= |s|
    requires forall m :: j <= m < r ==> InClass(s[m], k)
    requires r == |s| || !InClass(s[r], k)
    ensures SkipRun(s, j, k) == r
    decreases r - j
  {
    if j < r {
      SkipRunIs(s, j + 1, k, r);
    }
  }

  /** The scanner recognises exactly the control sequences, at the head of s. */
  lemma MatchLengthIff(s: seq<char>, n: nat)
    requires n <= |s|
    ensures MatchLength(s) == Some(n) <==> IsControlSequence(s[..n])
  {
    if MatchLength(s) == Some(n) {
      MatchLengthSound(s, n);
    }
    if IsControlSequence(s[..n]) {
      var i: nat, p: nat :| IsSplit(s[..n], i, p);
      MatchLengthComplete(s, n, i, p);
    }
  }

  /** What the scanner matches is a control sequence. */
  lemma MatchLengthSound(s: seq<char>, n: nat)
    requires MatchLength(s) == Some(n)
    ensures n <= |s| && IsControlSequence(s[..n])
  {
    var t := s[..n];
    IntroducerLengthSpec(s);
    var i := IntroducerLength(s);
    var p := SkipRun(s, i, Parameter);
    SkipRunSpec(s, i, Parameter);
    SkipRunSpec(s, p, Intermediate);
    assert t[..i] == s[..i];
    assert IsSplit(t, i, p);
  }

  /** A control sequence at the head of s is what the scanner matches. */
  lemma MatchLengthComplete(s: seq<char>, n: nat, i: nat, p: nat)
    requires n <= |s| && IsSplit(s[..n], i, p)
    ensures MatchLength(s) == Some(n)
  {
    var t := s[..n];
    assert IsIntroducer(s[..i]) by { assert s[..i] == t[..i]; }
    assert IntroducerLength(s) == i by {
      assert s[0] == t[0];
      if i == 2 { assert s[1] == t[1]; }
    }
    SkipRunIs(s, i, Parameter, p);
    assert p == n - 1 || IsIntermediate(s[p]);
    SkipRunIs(s, p, Intermediate, n - 1);
  }

  /** MatchLength finds nothing exactly when no control sequence starts at the head. */
  lemma MatchLengthNone(s: seq<char>)
    ensures MatchLength(s) == None <==> NoControlAt(s)
  {
    if MatchLength(s).Some? {
      MatchLengthIff(s, MatchLength(s).value);
    }
    forall n | 0 <= n <= |s| && IsControlSequence(s[..n]) ensures MatchLength(s) != None {
      MatchLengthIff(s, n);
    }
  }

  // ---------------------------------------------------------------------------
  // Pieces

  /** One piece of scanned text: a whole control sequence, or one kept character. */
  datatype Piece = Control(text: seq<char>) | Text(c: char)

  /** The text the pieces were cut from. */
  function Flatten(ps: seq<Piece>): seq<char> {
    if ps == [] then []
    else
      (match ps[0] case Control(t) => t case Text(c) => [c]) + Flatten(ps[1..])
  }

  /** The characters of the Text pieces, in order: what is left once control sequences are removed. */
  function Visible(ps: seq<Piece>): seq<char> {
    if ps == [] then []
    else
      (match ps[0] case Control(_) => [] case Text(c) => [c]) + Visible(ps[1..])
  }

  lemma {:induction false} VisibleShorter(ps: seq<Piece>)
    ensures |Visible(ps)| <= |Flatten(ps)|
  {
    if ps != [] {
      VisibleShorter(ps[1..]);
    }
  }

  /** Left-to-right scan: take a control sequence where one starts, otherwise keep one character. */
  function Scan(s: seq<char>): seq<Piece>
    decreases |s|
  {
    if s == [] then []
    else
      match MatchLength(s)
      case Some(n) => [Control(s[..n])] + Scan(s[n..])
      case None => [Text(s[0])] + Scan(s[1..])
  }

  /**
   * ps is the tokenization of s that a leftmost, non-overlapping substitution
   * produces: the pieces spell s, every Control piece is a control sequence,
   * and no control sequence starts where a Text piece stands.
   */
  ghost predicate IsLeftmostTokenization(ps: seq<Piece>, s: seq<char>) {
    Flatten(ps) == s
    && (forall k :: 0 <= k < |ps| && ps[k].Control? ==> IsControlSequence(ps[k].text))
    && (forall k :: 0 <= k < |ps| && ps[k].Text? ==> NoControlAt(Flatten(ps[k..])))
  }

  /** The text with every control sequence removed. */
  function StripAnsi(s: seq<char>): seq<char> {
    Visible(Scan(s))
  }

  /** Removing control sequences never makes the text longer. */
  lemma StripAnsiShorter(s: seq<char>)
    ensures |StripAnsi(s)| <= |s|
  {
    ScanFlatten(s);
    VisibleShorter(Scan(s));
  }

  lemma {:induction false} ScanFlatten(s: seq<char>)
    ensures Flatten(Scan(s)) == s
    decreases |s|
  {
    if s != [] {
      var n := HeadLength(s);
      ScanFlatten(s[n..]);
      ScanFlattenStep(s);
    }
  }

  /** How many characters the scanner's first piece takes: a whole control sequence, or one character. */
  function HeadLength(s: seq<char>): (n: nat)
    requires s != []
    ensures 1 <= n <= |s|
  {
    match MatchLength(s)
    case Some(m) => m
    case None => 1
  }

  /** The first piece spells the first HeadLength(s) characters. */
  lemma ScanFlattenStep(s: seq<char>)
    requires s != []
    ensures Flatten(Scan(s)) == s[..HeadLength(s)] + Flatten(Scan(s[HeadLength(s)..]))
  {
    var ps := Scan(s);
    var n := HeadLength(s);
    assert ps[1..] == Scan(s[n..]);
    if MatchLength(s).None? {
      assert s[..n] == [s[0]];
    }
  }

  lemma FlattenTail(ps: seq<Piece>, k: nat)
    requires 0 < k <= |ps|
    ensures ps[1..][k - 1..] == ps[k..]
  {
  }

  /** The scanner's pieces are the leftmost tokenization of the text. */
  lemma {:induction false} ScanIsLeftmost(s: seq<char>)
    ensures IsLeftmostTokenization(Scan(s), s)
    decreases |s|
  {
    ScanFlatten(s);
    if s != [] {
      var ps := Scan(s);
      var rest := if MatchLength(s).Some? then s[MatchLength(s).value..] else s[1..];
      assert ps[1..] == Scan(rest);
      ScanIsLeftmost(rest);
      if MatchLength(s).Some? {
        MatchLengthIff(s, MatchLength(s).value);
      } else {
        MatchLengthNone(s);
      }
      forall k | 0 <= k < |ps| && ps[k].Control?
        ensures IsControlSequence(ps[k].text)
      {
        if k > 0 { assert ps[k] == Scan(rest)[k - 1]; }
      }
      forall k | 0 <= k < |ps| && ps[k].Text?
        ensures NoControlAt(Flatten(ps[k..]))
      {
        if k > 0 {
          FlattenTail(ps, k);
          assert ps[k] == Scan(rest)[k - 1];
        } else {
          assert ps[k..] == ps;
        }
      }
    }
  }

  /** The leftmost tokenization is unique, so the scanner is the only one. */
  lemma {:induction false} LeftmostUnique(ps: seq<Piece>, s: seq<char>)
    requires IsLeftmostTokenization(ps, s)
    ensures ps == Scan(s)
    decreases |ps|
  {
    if ps != [] {
      LeftmostTail(ps, s);
      LeftmostHead(ps, s);
      var n := HeadLength(s);
      LeftmostUnique(ps[1..], s[n..]);
      ScanHead(s);
    }
  }

  /** The piece the scanner takes first. */
  function HeadPiece(s: seq<char>): Piece
    requires s != []
  {
    if MatchLength(s).Some? then Control(s[..HeadLength(s)]) else Text(s[0])
  }

  /** The scanner's first piece and the text it leaves. */
  lemma ScanHead(s: seq<char>)
    requires s != []
    ensures Scan(s) == [HeadPiece(s)] + Scan(s[HeadLength(s)..])
  {
  }

  /** The first piece of a leftmost tokenization is the one the scanner takes first. */
  lemma LeftmostHead(ps: seq<Piece>, s: seq<char>)
    requires IsLeftmostTokenization(ps, s) && ps != []
    ensures s != []
    ensures ps[0] == HeadPiece(s)
    ensures s[HeadLength(s)..] == Flatten(ps[1..])
  {
    LeftmostTail(ps, s);
    var tail := ps[1..];
    match ps[0]
    case Control(t) =>
      assert s == t + Flatten(tail);
      assert s[..|t|] == t;
      MatchLengthIff(s, |t|);
      assert s[|t|..] == Flatten(tail);
    case Text(c) =>
      assert ps[0..] == ps;
      MatchLengthNone(s);
      assert s == [c] + Flatten(tail);
      assert s[1..] == Flatten(tail);
  }

  /** What follows the first piece of a leftmost tokenization is the leftmost tokenization of the rest. */
  lemma LeftmostTail(ps: seq<Piece>, s: seq<char>)
    requires IsLeftmostTokenization(ps, s) && ps != []
    ensures IsLeftmostTokenization(ps[1..], Flatten(ps[1..]))
    ensures ps[0].Control? ==> IsControlSequence(ps[0].text)
  {
    var tail := ps[1..];
    forall k | 0 <= k < |tail| && tail[k].Text?
      ensures NoControlAt(Flatten(tail[k..]))
    {
      FlattenTail(ps, k + 1);
      assert tail[k] == ps[k + 1];
    }
    assert forall k :: 0 <= k < |tail| ==> tail[k] == ps[k + 1];
  }

  // ---------------------------------------------------------------------------
  // Consequences used by the box layout

  /** Neither a parameter byte nor a final byte (so in particular not '['). */
  predicate IsInert(c: char) { !IsParameter(c) && !IsFinal(c) }

  lemma {:induction false} SkipRunAppend(u: seq<char>, t: seq<char>, j: nat, k: ByteClass)
    requires j <= |u|
    ensures SkipRun(u, j, k) < |u| ==> SkipRun(u + t, j, k) == SkipRun(u, j, k)
    ensures SkipRun(u, j, k) == |u| ==> SkipRun(u + t, j, k) == SkipRun(u + t, |u|, k)
    decreases |u| - j
  {
    if j < |u| && InClass(u[j], k) {
      assert (u + t)[j] == u[j];
      SkipRunAppend(u, t, j + 1, k);
    } else if j < |u| {
      assert (u + t)[j] == u[j];
    }
  }

  /** Text made of inert characters cannot complete a control sequence begun before it. */
  lemma MatchLengthAppendInert(u: seq<char>, t: seq<char>)
    requires u != []
    requires forall m :: 0 <= m < |t| ==> IsInert(t[m])
    ensures MatchLength(u + t) == MatchLength(u)
  {
    var s := u + t;
    assert s[0] == u[0];
    if |u| == 1 && |t| > 0 {
      assert s[1] == t[0];
    }
    if |u| >= 2 {
      assert s[1] == u[1];
    }
    var i := IntroducerLength(u);
    assert IntroducerLength(s) == i;
    if i > 0 {
      SkipRunAppend(u, t, i, Parameter);
      var p := SkipRun(u, i, Parameter);
      if p == |u| {
        assert |t| > 0 ==> s[|u|] == t[0];
        SkipRunIs(s, |u|, Parameter, |u|);
      }
      assert SkipRun(s, i, Parameter) == p;
      SkipRunAppend(u, t, p, Intermediate);
      var q := SkipRun(u, p, Intermediate);
      var q' := SkipRun(s, p, Intermediate);
      if q < |u| {
        assert s[q] == u[q];
      } else {
        assert q' >= |u|;
        if q' < |s| {
          assert s[q'] == t[q' - |u|];
        }
      }
    }
  }

  lemma {:induction false} PiecesConcat(a: seq<Piece>, b: seq<Piece>)
    ensures Flatten(a + b) == Flatten(a) + Flatten(b)
    ensures Visible(a + b) == Visible(a) + Visible(b)
    decreases |a|
  {
    if a != [] {
      assert (a + b)[1..] == a[1..] + b;
      PiecesConcat(a[1..], b);
    } else {
      assert a + b == b;
    }
  }

  /** Scanning distributes over appending inert text. */
  lemma {:induction false} ScanAppendInert(u: seq<char>, t: seq<char>)
    requires forall m :: 0 <= m < |t| ==> IsInert(t[m])
    ensures Scan(u + t) == Scan(u) + Scan(t)
    decreases |u|
  {
    if u == [] {
      assert u + t == t;
    } else {
      MatchLengthAppendInert(u, t);
      ScanAppendInert(u[HeadLength(u)..], t);
      ScanAppendCons(u, t);
    }
  }

  /** One step of the induction: if the rest after the first piece distributes, so does the whole. */
  lemma ScanAppendCons(u: seq<char>, t: seq<char>)
    requires u != [] && MatchLength(u + t) == MatchLength(u)
    requires Scan(u[HeadLength(u)..] + t) == Scan(u[HeadLength(u)..]) + Scan(t)
    ensures Scan(u + t) == Scan(u) + Scan(t)
  {
    ScanAppendStep(u, t);
    ScanHead(u);
    ConsAppend(Scan(u)[0], Scan(u[HeadLength(u)..]), Scan(t), Scan(u + t), Scan(u));
  }

  lemma ConsAppend<T>(h: T, a: seq<T>, b: seq<T>, x: seq<T>, y: seq<T>)
    requires x == [h] + (a + b) && y == [h] + a
    ensures x == y + b
  {
  }

  /** When appending leaves the head match alone, the first piece stays and the rest is scanned with t appended. */
  lemma ScanAppendStep(u: seq<char>, t: seq<char>)
    requires u != [] && MatchLength(u + t) == MatchLength(u)
    ensures Scan(u + t) == [Scan(u)[0]] + Scan(u[HeadLength(u)..] + t)
  {
    var s := u + t;
    var n := HeadLength(u);
    assert HeadLength(s) == n;
    assert HeadPiece(s) == HeadPiece(u) by {
      if MatchLength(u).Some? {
        assert s[..n] == u[..n];
      } else {
        assert s[0] == u[0];
      }
    }
    assert s[n..] == u[n..] + t;
    ScanHead(s);
    ScanHead(u);
  }

  /** A match ends with a final byte. */
  lemma MatchEndsFinal(s: seq<char>)
    ensures MatchLength(s).Some? ==> IsFinal(s[MatchLength(s).value - 1])
  {
  }

  /** Inert text holds no final byte, so no control sequence can end in it: it is kept whole. */
  lemma {:induction false} StripAnsiInert(t: seq<char>)
    requires forall m :: 0 <= m < |t| ==> IsInert(t[m])
    ensures StripAnsi(t) == t
    decreases |t|
  {
    if t != [] {
      InertHead(t);
      StripAnsiInert(t[1..]);
      assert t == [t[0]] + t[1..];
    }
  }

  /** The first character of inert text starts no control sequence, so it is kept. */
  lemma InertHead(t: seq<char>)
    requires t != [] && forall m :: 0 <= m < |t| ==> IsInert(t[m])
    ensures StripAnsi(t) == [t[0]] + StripAnsi(t[1..])
  {
    MatchEndsFinal(t);
    StripAnsiKeeps(t);
  }

  /** Removing control sequences distributes over appending inert text. */
  lemma StripAnsiAppendInert(u: seq<char>, t: seq<char>)
    requires forall m :: 0 <= m < |t| ==> IsInert(t[m])
    ensures StripAnsi(u + t) == StripAnsi(u) + StripAnsi(t)
    ensures StripAnsi(t) == t
  {
    StripAnsiInert(t);
    ScanAppendInert(u, t);
    PiecesConcat(Scan(u), Scan(t));
  }

  /** A character that cannot start an introducer is kept, and the rest is scanned on its own. */
  lemma StripAnsiCons(c: char, u: seq<char>)
    requires c != ESC && c != CSI
    ensures StripAnsi([c] + u) == [c] + StripAnsi(u)
  {
    var s := [c] + u;
    assert MatchLength(s) == None;
    assert s[1..] == u;
  }

  /** Text without ESC or the 8-bit CSI comes back unchanged. */
  lemma {:induction false} StripAnsiPlain(s: seq<char>)
    requires forall m :: 0 <= m < |s| ==> s[m] != ESC && s[m] != CSI
    ensures StripAnsi(s) == s
    decreases |s|
  {
    if s != [] {
      StripAnsiCons(s[0], s[1..]);
      StripAnsiPlain(s[1..]);
      assert s == [s[0]] + s[1..];
    }
  }

  /**
   * Removal is not idempotent: deleting the inner sequence of ESC ESC [ m [ m
   * joins the outer ESC with '[' 'm' into a new sequence.
   */
  lemma StripAnsiNotIdempotent(f: char)
    requires IsFinal(f)
    ensures StripAnsi([ESC, ESC, '[', f, '[', f]) == [ESC, '[', f]
    ensures StripAnsi([ESC, '[', f]) == []
  {
    var s := [ESC, ESC, '[', f, '[', f];
    LoneEscape(s);
    var s1 := s[1..];
    assert s1[..3] == [ESC, '[', f];
    ShortestAtHead(s1, f);
    assert s1[3..] == ['[', f];
    StripAnsiPlain(['[', f]);
    var x := [ESC, '[', f];
    assert x[..3] == x;
    ShortestAtHead(x, f);
    assert x[3..] == [];
  }

  /** An ESC not followed by '[' starts no control sequence and is kept. */
  lemma LoneEscape(s: seq<char>)
    requires |s| >= 2 && s[0] == ESC && s[1] != '['
    ensures MatchLength(s) == None && StripAnsi(s) == [ESC] + StripAnsi(s[1..])
  {
    assert IntroducerLength(s) == 0;
    StripAnsiKeeps(s);
  }

  /** ESC [ followed by a final byte, at the head of a text, is one control sequence and is dropped. */
  lemma ShortestAtHead(s: seq<char>, f: char)
    requires IsFinal(f) && |s| >= 3 && s[..3] == [ESC, '[', f]
    ensures MatchLength(s) == Some(3) && StripAnsi(s) == StripAnsi(s[3..])
  {
    assert IsSplit(s[..3], 2, 2) by {
      assert s[..3][..2] == [ESC, '['];
    }
    MatchLengthComplete(s, 3, 2, 2);
    StripAnsiDrops(s, 3);
  }

  /** A control sequence at the head is dropped whole. */
  lemma StripAnsiDrops(s: seq<char>, n: nat)
    requires s != [] && MatchLength(s) == Some(n)
    ensures StripAnsi(s) == StripAnsi(s[n..])
  {
    assert Scan(s) == [Control(s[..n])] + Scan(s[n..]);
    assert Visible(Scan(s)) == Visible(Scan(s[n..])) by {
      assert (Scan(s))[1..] == Scan(s[n..]);
    }
  }

  /** Where no control sequence starts, the first character is kept. */
  lemma StripAnsiKeeps(s: seq<char>)
    requires s != [] && MatchLength(s) == None
    ensures StripAnsi(s) == [s[0]] + StripAnsi(s[1..])
  {
    assert Scan(s) == [Text(s[0])] + Scan(s[1..]);
    assert (Scan(s))[1..] == Scan(s[1..]);
  }
}
