/**
 From a configured map to the address the peer dials: strings.TrimSpace, SplitMap, the target header on a
 stream and splitTarget. Go strings are byte strings; white space is Unicode's, in UTF-8.
 */
module Targets {
  import opened Bytes
  import opened Transport

  type Text = seq<byte>

  const MAX_TARGET := 4096
  const ARROW: Text := [45, 62] // "->"
  const COLON := 58
  const UDP_KIND: Text := [117, 100, 112]        // "udp"
  const BOTH_KIND: Text := [98, 111, 116, 104]   // "both"
  const TCP: Text := AsciiBytes("tcp://")
  const UDP: Text := AsciiBytes("udp://")
  const ANY_HOST: Text := AsciiBytes("0.0.0.0:")

  // ---- strings.TrimSpace ----

  /** Bytes of the white-space character that `s` starts with; 0 if it starts with none. */
  function LeadingSpace(s: Text): (n: nat)
    ensures n <= |s| && n <= 3
  {
    if |s| >= 1 && Space1(s[0]) then 1
    else if |s| >= 2 && Space2(s[0], s[1]) then 2
    else if |s| >= 3 && Space3(s[0], s[1], s[2]) then 3
    else 0
  }

  predicate Space1(a: byte) {
    9 <= a <= 13 || a == 32
  }

  predicate Space2(a: byte, b: byte) {
    a == 0xC2 && (b == 0x85 || b == 0xA0)
  }

  predicate Space3(a: byte, b: byte, c: byte) {
    || (a == 0xE1 && b == 0x9A && c == 0x80)
    || (a == 0xE2 && b == 0x80 && (0x80 <= c <= 0x8A || c == 0xA8 || c == 0xA9 || c == 0xAF))
    || (a == 0xE2 && b == 0x81 && c == 0x9F)
    || (a == 0xE3 && b == 0x80 && c == 0x80)
  }

  /** The same at the end of `s`. */
  function TrailingSpace(s: Text): (n: nat)
    ensures n <= |s| && n <= 3
  {
    var n := |s|;
    if n >= 1 && Space1(s[n - 1]) then 1
    else if n >= 2 && Space2(s[n - 2], s[n - 1]) then 2
    else if n >= 3 && Space3(s[n - 3], s[n - 2], s[n - 1]) then 3
    else 0
  }

  function TrimLeft(s: Text): (t: Text)
    ensures LeadingSpace(t) == 0 && |t| <= |s|
    decreases |s|
  {
    var n := LeadingSpace(s);
    if n == 0 then s else TrimLeft(s[n..])
  }

  function TrimRight(s: Text): (t: Text)
    ensures TrailingSpace(t) == 0 && t <= s
    decreases |s|
  {
    var n := TrailingSpace(s);
    if n == 0 then s else TrimRight(s[..|s| - n])
  }

  function TrimSpace(s: Text): Text {
    TrimRight(TrimLeft(s))
  }

  predicate Trimmed(s: Text) {
    LeadingSpace(s) == 0 && TrailingSpace(s) == 0
  }

  lemma PrefixHasNoLeadingSpace(t: Text, s: Text)
    requires t <= s && LeadingSpace(s) == 0
    ensures LeadingSpace(t) == 0
  {
  }

  /** Trimming leaves no white space at either end, and trimming again changes nothing. */
  lemma TrimSpaceTrims(s: Text)
    ensures Trimmed(TrimSpace(s))
    ensures TrimSpace(TrimSpace(s)) == TrimSpace(s)
    ensures Trimmed(s) ==> TrimSpace(s) == s
  {
    PrefixHasNoLeadingSpace(TrimSpace(s), TrimLeft(s));
  }

  // ---- what white space is, and what trimming removes ----

  /** The code points with the Unicode property White_Space. */
  predicate WhiteSpace(c: nat) {
    || 0x09 <= c <= 0x0D || c == 0x20 || c == 0x85 || c == 0xA0 || c == 0x1680
    || 0x2000 <= c <= 0x200A || c == 0x2028 || c == 0x2029 || c == 0x202F || c == 0x205F || c == 0x3000
  }

  /** UTF-8, for code points below 0x1_0000. */
  function Utf8(c: nat): Text
    requires c < 0x1_0000
  {
    if c < 0x80 then [c]
    else if c < 0x800 then [0xC0 + c / 64, 0x80 + c % 64]
    else [0xE0 + c / 4096, 0x80 + c / 64 % 64, 0x80 + c % 64]
  }

  ghost predicate SpaceChar(s: Text) {
    exists c :: c < 0x1_0000 && WhiteSpace(c) && s == Utf8(c)
  }

  ghost predicate AllSpace(chars: seq<Text>) {
    forall i :: 0 <= i < |chars| ==> SpaceChar(chars[i])
  }

  /** Nothing but white-space characters. */
  ghost predicate White(s: Text) {
    exists chars: seq<Text> :: AllSpace(chars) && s == Flatten(chars)
  }

  predicate SpacePattern(w: Text) {
    || (|w| == 1 && Space1(w[0]))
    || (|w| == 2 && Space2(w[0], w[1]))
    || (|w| == 3 && Space3(w[0], w[1], w[2]))
  }

  lemma SpaceHasPattern(c: nat)
    requires c < 0x1_0000 && WhiteSpace(c)
    ensures SpacePattern(Utf8(c))
  {
  }

  lemma PatternIsSpace(w: Text)
    requires SpacePattern(w)
    ensures SpaceChar(w)
  {
    var c: nat :=
      if |w| == 1 then w[0]
      else if |w| == 2 then w[1]
      else (w[0] as int - 0xE0) * 4096 + (w[1] as int - 0x80) * 64 + (w[2] as int - 0x80);
    assert WhiteSpace(c) && w == Utf8(c);
  }

  /** The encodings of the white-space characters are the byte patterns that the scans look for. */
  lemma SpaceCharForms(w: Text)
    ensures SpaceChar(w) <==> SpacePattern(w)
  {
    if SpacePattern(w) {
      PatternIsSpace(w);
    }
    if c :| c < 0x1_0000 && WhiteSpace(c) && w == Utf8(c) {
      SpaceHasPattern(c);
    }
  }

  lemma PatternLeads(w: Text, rest: Text)
    requires SpacePattern(w)
    ensures LeadingSpace(w + rest) == |w|
  {
    var s := w + rest;
    assert forall i :: 0 <= i < |w| ==> s[i] == w[i];
  }

  lemma LeadingPattern(s: Text)
    requires LeadingSpace(s) > 0
    ensures SpacePattern(s[..LeadingSpace(s)])
  {
  }

  lemma PatternTrails(front: Text, w: Text)
    requires SpacePattern(w)
    ensures TrailingSpace(front + w) == |w|
  {
    var s, n := front + w, |w|;
    assert s[|s| - 1] == w[n - 1];
    assert n >= 2 ==> s[|s| - 2] == w[n - 2];
    assert n >= 3 ==> s[|s| - 3] == w[n - 3];
  }

  lemma TrailingPattern(s: Text)
    requires TrailingSpace(s) > 0
    ensures SpacePattern(s[|s| - TrailingSpace(s)..])
  {
  }

  lemma LeadingSpaceExactly(w: Text, rest: Text)
    ensures SpaceChar(w) ==> LeadingSpace(w + rest) == |w|
    ensures LeadingSpace(rest) > 0 ==> SpaceChar(rest[..LeadingSpace(rest)])
  {
    SpaceCharForms(w);
    if SpacePattern(w) {
      PatternLeads(w, rest);
    }
    if LeadingSpace(rest) > 0 {
      LeadingPattern(rest);
      PatternIsSpace(rest[..LeadingSpace(rest)]);
    }
  }

  lemma TrailingSpaceExactly(front: Text, w: Text)
    ensures SpaceChar(w) ==> TrailingSpace(front + w) == |w|
    ensures TrailingSpace(front) > 0 ==> SpaceChar(front[|front| - TrailingSpace(front)..])
  {
    SpaceCharForms(w);
    if SpacePattern(w) {
      PatternTrails(front, w);
    }
    if TrailingSpace(front) > 0 {
      TrailingPattern(front);
      PatternIsSpace(front[|front| - TrailingSpace(front)..]);
    }
  }

  /** A trimmed text neither starts nor ends with a white-space character. */
  lemma TrimmedExactly(t: Text)
    ensures Trimmed(t) <==> forall n :: 0 <= n <= |t| ==> !SpaceChar(t[..n]) && !SpaceChar(t[n..])
  {
    LeadingSpaceExactly([], t);
    TrailingSpaceExactly(t, []);
    forall n | 0 <= n <= |t| && (SpaceChar(t[..n]) || SpaceChar(t[n..])) ensures !Trimmed(t) {
      assert t == t[..n] + t[n..];
      SpaceCharForms(t[..n]);
      SpaceCharForms(t[n..]);
      LeadingSpaceExactly(t[..n], t[n..]);
      TrailingSpaceExactly(t[..n], t[n..]);
    }
    if !Trimmed(t) {
      var n, m := LeadingSpace(t), |t| - TrailingSpace(t);
      assert n > 0 ==> SpaceChar(t[..n]);
      assert m < |t| ==> SpaceChar(t[m..]);
    }
  }

  lemma NoneIsWhite()
    ensures White([])
  {
    assert AllSpace([]) && Flatten([]) == [];
  }

  lemma {:induction false} FlattenJoins(a: seq<Text>, b: seq<Text>)
    ensures Flatten(a + b) == Flatten(a) + Flatten(b)
  {
    if a == [] {
      assert a + b == b;
    } else {
      FlattenJoins(a[1..], b);
      ConcatAssociative(a[0], Flatten(a[1..]), Flatten(b));
      assert (a + b)[1..] == a[1..] + b;
    }
  }

  lemma OneIsWhite(w: Text)
    requires SpaceChar(w)
    ensures White(w)
  {
    assert Flatten([w]) == w;
    assert AllSpace([w]);
  }

  lemma WhiteJoins(a: Text, b: Text)
    requires White(a) && White(b)
    ensures White(a + b)
  {
    var x :| AllSpace(x) && a == Flatten(x);
    var y :| AllSpace(y) && b == Flatten(y);
    FlattenJoins(x, y);
    assert AllSpace(x + y);
  }

  lemma TrimLeftPast(w: Text, t: Text)
    requires SpaceChar(w)
    ensures TrimLeft(w + t) == TrimLeft(t)
  {
    SpaceCharForms(w);
    LeadingSpaceExactly(w, t);
    assert (w + t)[|w|..] == t;
  }

  lemma TrimRightPast(t: Text, w: Text)
    requires SpaceChar(w)
    ensures TrimRight(t + w) == TrimRight(t)
  {
    SpaceCharForms(w);
    TrailingSpaceExactly(t, w);
    assert (t + w)[..|t|] == t;
  }

  lemma {:induction false} FoldOffLeft(f: Text -> Text, chars: seq<Text>, t: Text)
    requires forall w, x :: SpaceChar(w) ==> f(w + x) == f(x)
    requires AllSpace(chars)
    ensures f(Flatten(chars) + t) == f(t)
  {
    if chars == [] {
      assert [] + t == t;
    } else {
      var w, rest := chars[0], Flatten(chars[1..]);
      FoldOffLeft(f, chars[1..], t);
      ConcatAssociative(w, rest, t);
    }
  }

  lemma {:induction false} FoldOffRight(f: Text -> Text, t: Text, chars: seq<Text>)
    requires forall x, w :: SpaceChar(w) ==> f(x + w) == f(x)
    requires AllSpace(chars)
    ensures f(t + Flatten(chars)) == f(t)
    decreases |chars|
  {
    if chars == [] {
      assert t + [] == t;
    } else {
      var w, rest := chars[0], Flatten(chars[1..]);
      FoldOffRight(f, t + w, chars[1..]);
      ConcatAssociative(t, w, rest);
    }
  }

  lemma TrimLeftOf(a: Text, t: Text)
    requires White(a)
    ensures TrimLeft(a + t) == TrimLeft(t)
  {
    forall w, x | SpaceChar(w) ensures TrimLeft(w + x) == TrimLeft(x) {
      TrimLeftPast(w, x);
    }
    var chars :| AllSpace(chars) && a == Flatten(chars);
    FoldOffLeft(TrimLeft, chars, t);
  }

  lemma TrimRightOf(t: Text, b: Text)
    requires White(b)
    ensures TrimRight(t + b) == TrimRight(t)
  {
    forall x, w | SpaceChar(w) ensures TrimRight(x + w) == TrimRight(x) {
      TrimRightPast(x, w);
    }
    var chars :| AllSpace(chars) && b == Flatten(chars);
    FoldOffRight(TrimRight, t, chars);
  }

  /** No white-space character starts in `t` and ends in the white space behind it. */
  lemma NoneAcross(t: Text, b: Text)
    requires t != [] && LeadingSpace(t) == 0 && White(b)
    ensures LeadingSpace(t + b) == 0
  {
    if b != [] {
      WhiteStarts(b);
    } else {
      assert t + b == t;
    }
  }

  lemma WhiteStarts(b: Text)
    requires White(b) && b != []
    ensures b[0] <= 32 || 0xC2 <= b[0] <= 0xE3
  {
    var chars :| AllSpace(chars) && b == Flatten(chars);
    SpaceCharForms(chars[0]);
    assert b[0] == chars[0][0];
  }

  /** Trimming takes away the white space around a trimmed text, and nothing else. */
  lemma TrimSpaceOf(a: Text, t: Text, b: Text)
    requires White(a) && Trimmed(t) && White(b)
    ensures TrimSpace(a + t + b) == t
  {
    ConcatAssociative(a, t, b);
    TrimLeftOf(a, t + b);
    if t == [] {
      assert t + b == b + [];
      TrimLeftOf(b, []);
    } else {
      NoneAcross(t, b);
      TrimRightOf(t, b);
    }
  }

  lemma TrimLeftStep(s: Text)
    ensures var n := LeadingSpace(s);
            if n == 0 then TrimLeft(s) == s else SpaceChar(s[..n]) && TrimLeft(s) == TrimLeft(s[n..])
  {
    LeadingSpaceExactly([], s);
  }

  lemma TrimRightStep(s: Text)
    ensures var n := TrailingSpace(s);
            if n == 0 then TrimRight(s) == s
            else SpaceChar(s[|s| - n..]) && TrimRight(s) == TrimRight(s[..|s| - n])
  {
    TrailingSpaceExactly(s, []);
  }

  lemma CutMoreLeft(w: Text, x: Text, middle: Text)
    requires SpaceChar(w) && White(x)
    ensures White(w + x) && w + (x + middle) == w + x + middle
  {
    OneIsWhite(w);
    WhiteJoins(w, x);
    ConcatAssociative(w, x, middle);
  }

  lemma CutMoreRight(middle: Text, x: Text, w: Text)
    requires SpaceChar(w) && White(x)
    ensures White(x + w) && middle + x + w == middle + (x + w)
  {
    OneIsWhite(w);
    WhiteJoins(x, w);
    ConcatAssociative(middle, x, w);
  }

  lemma {:induction false} CutLeft(f: Text -> Text, n: Text -> nat, s: Text) returns (a: Text)
    requires forall x {:trigger n(x)} ::
               n(x) <= |x| && if n(x) == 0 then f(x) == x else SpaceChar(x[..n(x)]) && f(x) == f(x[n(x)..])
    ensures White(a) && s == a + f(s)
    decreases |s|
  {
    if n(s) == 0 {
      NoneIsWhite();
      a := [];
    } else {
      var w, rest := s[..n(s)], s[n(s)..];
      var x := CutLeft(f, n, rest);
      CutMoreLeft(w, x, f(rest));
      assert s == w + rest;
      a := w + x;
    }
  }

  lemma {:induction false} CutRight(f: Text -> Text, n: Text -> nat, s: Text) returns (b: Text)
    requires forall x {:trigger n(x)} ::
               n(x) <= |x|
               && if n(x) == 0 then f(x) == x else SpaceChar(x[|x| - n(x)..]) && f(x) == f(x[..|x| - n(x)])
    ensures White(b) && s == f(s) + b
    decreases |s|
  {
    if n(s) == 0 {
      NoneIsWhite();
      b := [];
    } else {
      var front, w := s[..|s| - n(s)], s[|s| - n(s)..];
      var x := CutRight(f, n, front);
      CutMoreRight(f(front), x, w);
      assert s == front + w;
      b := x + w;
    }
  }

  lemma TrimLeftCuts(s: Text) returns (a: Text)
    ensures White(a) && s == a + TrimLeft(s)
  {
    forall x {:trigger LeadingSpace(x)}
      ensures if LeadingSpace(x) == 0 then TrimLeft(x) == x
              else SpaceChar(x[..LeadingSpace(x)]) && TrimLeft(x) == TrimLeft(x[LeadingSpace(x)..])
    {
      TrimLeftStep(x);
    }
    a := CutLeft(TrimLeft, LeadingSpace, s);
  }

  lemma TrimRightCuts(s: Text) returns (b: Text)
    ensures White(b) && s == TrimRight(s) + b
  {
    forall x {:trigger TrailingSpace(x)}
      ensures if TrailingSpace(x) == 0 then TrimRight(x) == x
              else SpaceChar(x[|x| - TrailingSpace(x)..]) && TrimRight(x) == TrimRight(x[..|x| - TrailingSpace(x)])
    {
      TrimRightStep(x);
    }
    b := CutRight(TrimRight, TrailingSpace, s);
  }

  /** What TrimSpace returns is the text without white space at its ends, and the only such part of it. */
  lemma TrimSpaceExactly(s: Text) returns (a: Text, b: Text)
    ensures White(a) && White(b) && s == a + TrimSpace(s) + b && Trimmed(TrimSpace(s))
    ensures forall x, t, y :: White(x) && Trimmed(t) && White(y) && s == x + t + y ==> t == TrimSpace(s)
  {
    a := TrimLeftCuts(s);
    b := TrimRightCuts(TrimLeft(s));
    ConcatAssociative(a, TrimSpace(s), b);
    TrimSpaceTrims(s);
    forall x, t, y | White(x) && Trimmed(t) && White(y) && s == x + t + y ensures t == TrimSpace(s) {
      TrimSpaceOf(x, t, y);
    }
  }

  // ---- strings.Split(s, "->") in two ----

  predicate ArrowAt(s: Text, i: nat) {
    i + 2 <= |s| && s[i] == ARROW[0] && s[i + 1] == ARROW[1]
  }

  ghost predicate HasArrow(s: Text) {
    exists i :: ArrowAt(s, i)
  }

  lemma HasArrowExactly(s: Text)
    ensures HasArrow(s) <==> exists x: Text, y :: s == x + [45, 62] + y
  {
    if i: nat :| ArrowAt(s, i) {
      assert s == s[..i] + [45, 62] + s[i + 2..];
    }
    if x: Text, y :| s == x + [45, 62] + y {
      assert ArrowAt(s, |x|);
    }
  }

  /** Index of the first "->" from position i on. */
  function FindArrow(s: Text, i: nat): (at: Option<nat>)
    ensures at.Some? ==> i <= at.value && ArrowAt(s, at.value) && forall j :: i <= j < at.value ==> !ArrowAt(s, j)
    ensures at.None? ==> forall j :: i <= j ==> !ArrowAt(s, j)
    decreases |s| - i
  {
    if i + 2 > |s| then None else if ArrowAt(s, i) then Some(i) else FindArrow(s, i + 1)
  }

  /** The two parts, if there are exactly two. */
  function SplitInTwo(s: Text): Option<(Text, Text)> {
    match FindArrow(s, 0)
    case None => None
    case Some(i) => if FindArrow(s, i + 2).Some? then None else Some((s[..i], s[i + 2..]))
  }

  lemma SplitJoined(a: Text, b: Text)
    ensures SplitInTwo(a + ARROW + b) == if HasArrow(a) || HasArrow(b) then None else Some((a, b))
  {
    var s := a + ARROW + b;
    assert ArrowAt(s, |a|);
    assert forall i :: 0 <= i < |a| ==> (ArrowAt(s, i) <==> ArrowAt(a, i));
    assert !ArrowAt(s, |a| + 1);
    forall i | |a| + 2 <= i ensures ArrowAt(s, i) <==> ArrowAt(b, i - |a| - 2) {
    }
    if HasArrow(a) {
      var i :| ArrowAt(a, i);
      assert ArrowAt(s, i);
    } else {
      assert FindArrow(s, 0) == Some(|a|);
      if HasArrow(b) {
        var j :| ArrowAt(b, j);
        assert ArrowAt(s, |a| + 2 + j);
      } else {
        assert s[..|a|] == a && s[|a| + 2..] == b;
      }
    }
  }

  function WithHost(bind: Text): Text {
    if COLON in bind then bind else ANY_HOST + bind
  }

  /** SplitMap: bind address and target, or None. */
  function SplitMap(s: Text): Option<(Text, Text)> {
    match SplitInTwo(s)
    case None => None
    case Some(parts) =>
      var bind, target := TrimSpace(parts.0), TrimSpace(parts.1);
      if bind == [] || target == [] then None else Some((WithHost(bind), target))
  }

  lemma {:induction false} SpaceBytes(chars: seq<Text>)
    requires AllSpace(chars)
    ensures forall i :: 0 <= i < |Flatten(chars)| ==> Flatten(chars)[i] <= 32 || Flatten(chars)[i] >= 0x80
  {
    if chars != [] {
      SpaceCharForms(chars[0]);
      SpaceBytes(chars[1..]);
    }
  }

  lemma WhiteBytes(a: Text)
    requires White(a)
    ensures forall i :: 0 <= i < |a| ==> a[i] <= 32 || a[i] >= 0x80
  {
    var chars :| AllSpace(chars) && a == Flatten(chars);
    SpaceBytes(chars);
  }

  lemma ArrowsInside(a: Text, t: Text, b: Text)
    requires White(a) && White(b)
    ensures HasArrow(a + t + b) <==> HasArrow(t)
  {
    WhiteBytes(a);
    WhiteBytes(b);
    var s := a + t + b;
    if i: nat :| ArrowAt(t, i) {
      assert ArrowAt(s, |a| + i);
    }
    if i: nat :| ArrowAt(s, i) {
      assert s[i] == 45 && s[i + 1] == 62;
      assert i >= |a| && i + 1 < |a| + |t|;
      assert ArrowAt(t, i - |a|);
    }
  }

  lemma SplitMapParts(p: Text, q: Text)
    ensures SplitMap(p + ARROW + q)
         == if HasArrow(p) || HasArrow(q) || TrimSpace(p) == [] || TrimSpace(q) == [] then None
            else Some((WithHost(TrimSpace(p)), TrimSpace(q)))
  {
    SplitJoined(p, q);
  }

  /** A bind without a colon gets "0.0.0.0:" in front. */
  lemma HostIsAny(bind: Text)
    ensures WithHost(bind) == if 58 in bind then bind else [48, 46, 48, 46, 48, 46, 48, 58] + bind
  {
    assert ANY_HOST == [48, 46, 48, 46, 48, 46, 48, 58];
  }

  /**
   SplitMap of "bind -> target", whatever white space is around the two parts: both parts as they are, a bind
   without a colon behind "0.0.0.0:"; nothing if a part is missing or holds an arrow.
   */
  lemma SplitMapSpaced(a: Text, bind: Text, b: Text, c: Text, target: Text, d: Text)
    requires White(a) && White(b) && White(c) && White(d) && Trimmed(bind) && Trimmed(target)
    ensures var host: Text := if 58 in bind then bind else [48, 46, 48, 46, 48, 46, 48, 58] + bind;
            SplitMap((a + bind + b) + [45, 62] + (c + target + d))
            == if bind == [] || target == [] || HasArrow(bind) || HasArrow(target) then None else Some((host, target))
  {
    var p, q := a + bind + b, c + target + d;
    SplitMapParts(p, q);
    ArrowsInside(a, bind, b);
    ArrowsInside(c, target, d);
    TrimSpaceOf(a, bind, b);
    TrimSpaceOf(c, target, d);
    HostIsAny(bind);
  }

  // ---- configured maps ----

  datatype DaggerMap = DaggerMap(kind: Text, bind: Text, target: Text)

  datatype Network = Tcp | Udp

  function Lower(c: byte): byte {
    if 65 <= c <= 90 then c + 32 else c
  }

  /** strings.ToLower, exact on ASCII; no other letter lowers to one of those compared here. */
  function ToLower(s: Text): (t: Text)
    ensures |t| == |s|
  {
    seq(|s|, i requires 0 <= i < |s| => Lower(s[i]))
  }

  function Entry(m: DaggerMap): Text {
    TrimSpace(m.bind) + ARROW + TrimSpace(m.target)
  }

  datatype Kind = OnlyTcp | OnlyUdp | Both

  /** Anything but "udp" and "both", in any case and with any white space around, means tcp. */
  function KindOf(m: DaggerMap): Kind {
    var kind := ToLower(TrimSpace(m.kind));
    if kind == UDP_KIND then OnlyUdp else if kind == BOTH_KIND then Both else OnlyTcp
  }

  predicate Wants(kind: Kind, network: Network) {
    match kind
    case OnlyTcp => network == Tcp
    case OnlyUdp => network == Udp
    case Both => true
  }

  /** The entries for one network, in the order of the maps. */
  function Select<M>(maps: seq<M>, kind: M -> Kind, entry: M -> Text, network: Network): seq<Text> {
    if maps == [] then []
    else
      var n := |maps| - 1;
      Select(maps[..n], kind, entry, network) + if Wants(kind(maps[n]), network) then [entry(maps[n])] else []
  }

  /** The forward list of one network that mapDaggerToLegacy builds. */
  function Forwards(maps: seq<DaggerMap>, network: Network): seq<Text> {
    Select(maps, KindOf, Entry, network)
  }

  predicate SameIgnoringCase(w: Text, word: Text) {
    |w| == |word| && forall i :: 0 <= i < |w| ==> w[i] == word[i] || w[i] as int + 32 == word[i]
  }

  lemma LowersTo(w: Text, word: Text)
    requires forall i :: 0 <= i < |word| ==> 97 <= word[i] <= 122
    ensures ToLower(w) == word <==> SameIgnoringCase(w, word)
  {
    if ToLower(w) == word {
      assert forall i :: 0 <= i < |w| ==> Lower(w[i]) == ToLower(w)[i];
    }
  }

  /**
   A type "udp" or "both", in any case and with any white space around, puts a map on the udp list; every type but
   "udp" puts it on the tcp list.
   */
  lemma KindDecides(m: DaggerMap, a: Text, w: Text, b: Text)
    requires m.kind == a + w + b && White(a) && Trimmed(w) && White(b)
    ensures Wants(KindOf(m), Tcp) <==> !SameIgnoringCase(w, [117, 100, 112])
    ensures Wants(KindOf(m), Udp) <==> SameIgnoringCase(w, [117, 100, 112]) || SameIgnoringCase(w, [98, 111, 116, 104])
  {
    TrimSpaceOf(a, w, b);
    LowersTo(w, [117, 100, 112]);
    LowersTo(w, [98, 111, 116, 104]);
  }

  /** The loop of mapDaggerToLegacy. */
  method AppendEntries<M>(maps: seq<M>, kind: M -> Kind, entry: M -> Text) returns (tcp: seq<Text>, udp: seq<Text>)
    ensures tcp == Select(maps, kind, entry, Tcp)
    ensures udp == Select(maps, kind, entry, Udp)
  {
    tcp, udp := [], [];
    var i := 0;
    while i < |maps|
      invariant 0 <= i <= |maps|
      invariant tcp == Select(maps[..i], kind, entry, Tcp)
      invariant udp == Select(maps[..i], kind, entry, Udp)
    {
      match kind(maps[i]) {
        case OnlyUdp => udp := udp + [entry(maps[i])];
        case Both => tcp, udp := tcp + [entry(maps[i])], udp + [entry(maps[i])];
        case OnlyTcp => tcp := tcp + [entry(maps[i])];
      }
      assert maps[..i + 1][..i] == maps[..i];
      i := i + 1;
    }
    assert maps[..i] == maps;
  }

  /** mapDaggerToLegacy: the maps are used only when both lists are empty. */
  method MapDaggerToLegacy(maps: seq<DaggerMap>, tcp: seq<Text>, udp: seq<Text>)
      returns (tcp_: seq<Text>, udp_: seq<Text>)
    ensures tcp_ == if tcp == [] && udp == [] then Forwards(maps, Tcp) else tcp
    ensures udp_ == if tcp == [] && udp == [] then Forwards(maps, Udp) else udp
  {
    tcp_, udp_ := tcp, udp;
    if |tcp| == 0 && |udp| == 0 {
      tcp_, udp_ := AppendEntries(maps, KindOf, Entry);
    }
  }

  lemma {:induction false} SelectsEach<M>(maps: seq<M>, kind: M -> Kind, entry: M -> Text, m: M, network: Network)
    requires m in maps && Wants(kind(m), network)
    ensures entry(m) in Select(maps, kind, entry, network)
  {
    var n := |maps| - 1;
    if m != maps[n] {
      assert maps == maps[..n] + [maps[n]];
      SelectsEach(maps[..n], kind, entry, m, network);
    }
  }

  lemma {:induction false} SelectsOnly<M>(maps: seq<M>, kind: M -> Kind, entry: M -> Text, e: Text, network: Network)
    requires e in Select(maps, kind, entry, network)
    ensures exists m :: m in maps && Wants(kind(m), network) && e == entry(m)
  {
    var n := |maps| - 1;
    if Wants(kind(maps[n]), network) && e == entry(maps[n]) {
      assert maps[n] in maps;
    } else {
      SelectsOnly(maps[..n], kind, entry, e, network);
    }
  }

  /** Forwarding entries and wanted maps correspond, for each network. */
  lemma ForwardsExactly(maps: seq<DaggerMap>, network: Network, e: Text)
    ensures e in Forwards(maps, network) <==> exists m :: m in maps && Wants(KindOf(m), network) && e == Entry(m)
  {
    if e in Forwards(maps, network) {
      SelectsOnly(maps, KindOf, Entry, e, network);
    }
    if m :| m in maps && Wants(KindOf(m), network) && e == Entry(m) {
      SelectsEach(maps, KindOf, Entry, m, network);
    }
  }

  // ---- the target header ----

  function Scheme(network: Network): Text {
    if network.Tcp? then TCP else UDP
  }

  function TargetWire(target: Text): Text {
    PutU16(|target|) + target
  }

  /** What the accepting side reads: the target and what follows it; None if it gives up. */
  function ParseTarget(stream: Text): Option<(Text, Text)> {
    if |stream| < 2 then None else
    var n := U16(stream[..2]);
    if n == 0 || n > MAX_TARGET || |stream| < 2 + n then None else Some((stream[2..2 + n], stream[2 + n..]))
  }

  /** splitTarget: a missing scheme means tcp. */
  function SplitTarget(s: Text): (Network, Text) {
    if UDP <= s then (Udp, s[|UDP|..]) else (Tcp, if TCP <= s then s[|TCP|..] else s)
  }

  /** sendTarget: header and target in two writes. */
  method SendTarget(w: Socket, target: Text) returns (ok: bool)
    modifies w`outbox, w`segments, w`broken
    ensures ok ==> w.outbox == old(w.outbox) + TargetWire(target)
    ensures ok ==> w.outbox == old(w.outbox) + ([|target| / 256 % 256, |target| % 256] + target)
    ensures !ok ==> w.broken
  {
    var n;
    var hdr := PutU16(|target|);
    n, ok := w.Write(hdr);
    if !ok {
      return;
    }
    assert hdr[..|hdr|] == hdr && target[..|target|] == target;
    n, ok := w.Write(target);
  }

  /** The header part of handleReverseStream and handleForwardStream, however the stream is cut. */
  method ReadTarget(conn: BufferedConn) returns (res: Option<Text>)
    requires conn.Valid()
    modifies conn`r, conn`w, conn.buf, conn.conn.conn`inbox, conn.conn.conn`broken
    ensures conn.Valid()
    ensures match ParseTarget(old(conn.Incoming()))
            case None => res == None
            case Some(parsed) =>
              (res == Some(parsed.0) && conn.Incoming() == parsed.1) || (res == None && conn.conn.conn.broken)
  {
    ghost var stream := conn.Incoming();
    var hdr := new byte[2];
    var ok := conn.ReadFull(hdr, 0, 2);
    if !ok {
      return None;
    }
    assert hdr[..] == hdr[0..2] == stream[..2];
    var n := U16(hdr[..]);
    if n == 0 || n > MAX_TARGET {
      return None;
    }
    var buf := new byte[n];
    ok := conn.ReadFull(buf, 0, n);
    if !ok {
      return None;
    }
    Advance(stream, 2, n);
    assert buf[..] == buf[0..n];
    res := Some(buf[..]);
  }

  /** What the two length bytes decide, and where the target ends. */
  lemma ParseTargetExactly(a: byte, b: byte, rest: Text)
    ensures var n := a * 256 + b;
            ParseTarget([a, b] + rest)
            == if n == 0 || n > 4096 || n > |rest| then None else Some((rest[..n], rest[n..]))
  {
    var n, stream := a * 256 + b, [a, b] + rest;
    assert stream[..2] == [a, b];
    if n <= |rest| {
      assert stream[2..2 + n] == rest[..n] && stream[2 + n..] == rest[n..];
    }
  }

  /** The header round trip holds exactly for targets of 1 to 4096 bytes. */
  lemma TargetRoundTrip(target: Text, payload: Text)
    ensures ParseTarget(TargetWire(target) + payload) == Some((target, payload)) <==> 1 <= |target| <= 4096
  {
    var stream := TargetWire(target) + payload;
    assert stream[..2] == PutU16(|target|);
    U16RoundTrip(|target|);
    assert stream[2..] == target + payload;
    if 1 <= |target| <= MAX_TARGET {
      assert stream[2..2 + |target|] == target && stream[2 + |target|..] == payload;
    }
  }

  lemma SchemesParse(network: Network, target: Text)
    ensures SplitTarget(Scheme(network) + target) == (network, target)
    ensures Scheme(network) == if network.Udp? then [117, 100, 112, 58, 47, 47] else [116, 99, 112, 58, 47, 47]
    ensures !([117, 100, 112, 58, 47, 47] <= target) && !([116, 99, 112, 58, 47, 47] <= target) ==>
              SplitTarget(target) == (Tcp, target)
  {
    assert UDP == [117, 100, 112, 58, 47, 47] && TCP == [116, 99, 112, 58, 47, 47];
    var s := Scheme(network) + target;
    assert s[6..] == target;
    assert TCP[0] == 116 && UDP[0] == 117;
    if network.Tcp? {
      assert s[0] == TCP[0];
    }
  }

  // ---- end to end ----

  /** What the accepting side makes of a target sent with the scheme of `network`. */
  function Received(network: Network, target: Text, payload: Text): Option<(Network, Text, Text)> {
    match ParseTarget(TargetWire(Scheme(network) + target) + payload)
    case None => None
    case Some(parsed) => var (n, addr) := SplitTarget(parsed.0); Some((n, addr, parsed.1))
  }

  /** What the peer dials for a forward entry, and the bytes it relays when `payload` follows the header. */
  function Dialed(network: Network, entry: Text, payload: Text): Option<(Network, Text, Text)> {
    match SplitMap(entry)
    case None => None
    case Some(parts) => Received(network, parts.1, payload)
  }

  /** When a configured map reaches the peer unchanged. */
  ghost predicate Deliverable(m: DaggerMap) {
    var bind, target := TrimSpace(m.bind), TrimSpace(m.target);
    bind != [] && target != [] && !HasArrow(bind) && !HasArrow(target) && |target| <= 4090
  }

  lemma SplitMapOfEntry(m: DaggerMap)
    ensures var bind, target := TrimSpace(m.bind), TrimSpace(m.target);
            SplitMap(Entry(m)) == if bind != [] && target != [] && !HasArrow(bind) && !HasArrow(target)
                                  then Some((WithHost(bind), target)) else None
  {
    SplitJoined(TrimSpace(m.bind), TrimSpace(m.target));
    TrimSpaceTrims(m.bind);
    TrimSpaceTrims(m.target);
  }

  /** A longer target is refused or, from 65536 bytes on, cut short. */
  lemma TargetReceived(network: Network, target: Text, payload: Text)
    ensures Received(network, target, payload) == Some((network, target, payload)) <==> |target| <= 4090
  {
    var sent := Scheme(network) + target;
    SchemesParse(network, target);
    TargetRoundTrip(sent, payload);
    var stream := TargetWire(sent) + payload;
    assert stream[..2] == PutU16(|sent|);
    U16RoundTrip(|sent|);
    assert |sent| > MAX_TARGET && ParseTarget(stream).Some? ==> |ParseTarget(stream).value.1| > |payload|;
  }

  /** The peer dials the map's network and trimmed target, and the stream stands at the payload, if and only if. */
  lemma MapRoundTrip(m: DaggerMap, network: Network, payload: Text)
    ensures Dialed(network, Entry(m), payload) == Some((network, TrimSpace(m.target), payload)) <==> Deliverable(m)
  {
    SplitMapOfEntry(m);
    TargetReceived(network, TrimSpace(m.target), payload);
  }

  /**
   The same for a map as it is configured: with any white space around bind and target, the peer dials the target
   itself, unless a part is missing, holds an arrow, or the target is longer than 4090 bytes.
   */
  lemma SpacedMapRoundTrip(m: DaggerMap, a: Text, bind: Text, b: Text, c: Text, target: Text, d: Text,
                           network: Network, payload: Text)
    requires m.bind == a + bind + b && m.target == c + target + d
    requires White(a) && White(b) && White(c) && White(d) && Trimmed(bind) && Trimmed(target)
    ensures Entry(m) == bind + [45, 62] + target
    ensures Dialed(network, Entry(m), payload) == Some((network, target, payload))
       <==> bind != [] && target != [] && !HasArrow(bind) && !HasArrow(target) && |target| <= 4090
  {
    TrimSpaceOf(a, bind, b);
    TrimSpaceOf(c, target, d);
    MapRoundTrip(m, network, payload);
  }
}
