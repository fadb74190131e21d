/** Whitespace, stripping and the two regular-expression splits used on paper text. */
module Text {
  import opened Seqs

  /** What `str.strip` removes and `\s` matches. */
  predicate IsSpace(c: char)
  {
    || c == ' ' || '\t' <= c <= '\r' || '\U{1C}' <= c <= '\U{1F}'
    || c == '\U{85}' || c == '\U{A0}' || c == '\U{1680}' || '\U{2000}' <= c <= '\U{200A}'
    || c == '\U{2028}' || c == '\U{2029}' || c == '\U{202F}' || c == '\U{205F}' || c == '\U{3000}'
  }

  function LStrip(s: string): (r: string)
    ensures |r| <= |s|
    ensures r != "" ==> !IsSpace(r[0])
  {
    if s != "" && IsSpace(s[0]) then LStrip(s[1..]) else s
  }

  function RStrip(s: string): (r: string)
    ensures |r| <= |s| && r <= s
    ensures r != "" ==> !IsSpace(r[|r| - 1])
  {
    if s != "" && IsSpace(s[|s| - 1]) then RStrip(s[..|s| - 1]) else s
  }

  function Strip(s: string): (r: string)
    ensures |r| <= |s|
  {
    RStrip(LStrip(s))
  }

  /** No whitespace at either end. */
  predicate Stripped(s: string)
  {
    s != "" ==> !IsSpace(s[0]) && !IsSpace(s[|s| - 1])
  }

  lemma StripIsStripped(s: string)
    ensures Stripped(Strip(s))
  {
    var l := LStrip(s);
    assert RStrip(l) <= l;
  }

  lemma StrippedIsFixed(s: string)
    requires Stripped(s)
    ensures Strip(s) == s
  {
  }

  /** Every run of whitespace becomes one blank. */
  function Collapse(s: string): string
  {
    if s == "" then ""
    else if !IsSpace(s[0]) then [s[0]] + Collapse(s[1..])
    else if |s| >= 2 && IsSpace(s[1]) then Collapse(s[1..])
    else " " + Collapse(s[1..])
  }

  /** The texts differ in the length and kind of their whitespace at most. */
  predicate GapsAlike(a: string, b: string)
    decreases |a|
  {
    if a == "" || b == "" then a == b
    else if IsSpace(a[0]) && IsSpace(b[0]) then GapsAlike(LStrip(a), LStrip(b))
    else a[0] == b[0] && GapsAlike(a[1..], b[1..])
  }

  lemma {:induction false} CollapseRun(s: string)
    requires s != "" && IsSpace(s[0])
    ensures Collapse(s) == " " + Collapse(LStrip(s))
  {
    if |s| >= 2 && IsSpace(s[1]) {
      CollapseRun(s[1..]);
    }
  }

  lemma {:induction false} CollapseStarts(s: string)
    requires s != ""
    ensures Collapse(s) != "" && Collapse(s)[0] == if IsSpace(s[0]) then ' ' else s[0]
  {
    if IsSpace(s[0]) {
      CollapseRun(s);
    }
  }

  /** Collapsing forgets the length and kind of whitespace and nothing else. */
  lemma {:induction false} CollapsedAlikeIff(a: string, b: string)
    ensures Collapse(a) == Collapse(b) <==> GapsAlike(a, b)
    decreases |a|
  {
    if a != "" {
      CollapseStarts(a);
    }
    if b != "" {
      CollapseStarts(b);
    }
    if a != "" && b != "" {
      if IsSpace(a[0]) && IsSpace(b[0]) {
        CollapseRun(a);
        CollapseRun(b);
        CollapsedAlikeIff(LStrip(a), LStrip(b));
        SameTail(" ", Collapse(LStrip(a)), Collapse(LStrip(b)));
      } else if a[0] == b[0] {
        CollapsedAlikeIff(a[1..], b[1..]);
        SameTail([a[0]], Collapse(a[1..]), Collapse(b[1..]));
      }
    }
  }

  lemma SameTail(head: string, a: string, b: string)
    ensures head + a == head + b <==> a == b
  {
    assert (head + a)[|head|..] == a && (head + b)[|head|..] == b;
  }

  /** The text with all whitespace removed. */
  function Erase(s: string): (r: string)
  {
    if s == "" then "" else Erase(s[..|s| - 1]) + (if IsSpace(s[|s| - 1]) then "" else [s[|s| - 1]])
  }

  lemma EraseEmpty()
    ensures Erase("") == "" && EraseAll([]) == ""
  {
  }

  lemma {:induction false} EraseAppend(a: string, b: string)
    ensures Erase(a + b) == Erase(a) + Erase(b)
  {
    if b == "" {
      assert a + b == a;
    } else {
      assert (a + b)[..|a + b| - 1] == a + b[..|b| - 1];
      EraseAppend(a, b[..|b| - 1]);
    }
  }

  lemma {:induction false} EraseLStrip(s: string)
    ensures Erase(LStrip(s)) == Erase(s)
  {
    if s != "" && IsSpace(s[0]) {
      EraseLStrip(s[1..]);
      assert s == [s[0]] + s[1..];
      EraseAppend([s[0]], s[1..]);
    }
  }

  lemma {:induction false} EraseRStrip(s: string)
    ensures Erase(RStrip(s)) == Erase(s)
  {
    if s != "" && IsSpace(s[|s| - 1]) {
      EraseRStrip(s[..|s| - 1]);
    }
  }

  /** Stripping loses only whitespace. */
  lemma EraseStrip(s: string)
    ensures Erase(Strip(s)) == Erase(s)
  {
    EraseLStrip(s);
    EraseRStrip(LStrip(s));
  }

  /** All parts run together, without whitespace. */
  function EraseAll(parts: seq<string>): (r: string)
  {
    if parts == [] then "" else EraseAll(parts[..|parts| - 1]) + Erase(parts[|parts| - 1])
  }

  lemma {:induction false} EraseAllAppend(a: seq<string>, b: seq<string>)
    ensures EraseAll(a + b) == EraseAll(a) + EraseAll(b)
  {
    if b == [] {
      assert a + b == a;
    } else {
      hide Erase;
      var front, last := b[..|b| - 1], b[|b| - 1];
      assert (a + b)[..|a + b| - 1] == a + front;
      EraseAllAppend(a, front);
      ConcatAssoc(EraseAll(a), EraseAll(front), Erase(last));
    }
  }

  /* ----- splitting ----- */

  /** The separators `\n\s*\n` and `(?<=[.!?])\s+`. */
  datatype Separator = BlankLine | SentenceGap

  /** End of the whitespace run starting at i. */
  function RunEnd(s: string, i: nat): (e: nat)
    requires i <= |s|
    ensures i <= e <= |s|
    ensures forall k :: i <= k < e ==> IsSpace(s[k])
    ensures e < |s| ==> !IsSpace(s[e])
    decreases |s| - i
  {
    if i < |s| && IsSpace(s[i]) then RunEnd(s, i + 1) else i
  }

  /** Position after the last newline in s[lo..hi], or lo if there is none. */
  function AfterLastNewline(s: string, lo: nat, hi: nat): (e: nat)
    requires lo <= hi <= |s|
    ensures lo <= e <= hi
    ensures e > lo ==> s[e - 1] == '\n'
    ensures forall k :: e <= k < hi ==> s[k] != '\n'
    decreases hi
  {
    if hi == lo || s[hi - 1] == '\n' then hi else AfterLastNewline(s, lo, hi - 1)
  }

  /** End of the separator matched at position i, or i when none is matched there. */
  function MatchEnd(sep: Separator, s: string, i: nat): (e: nat)
    requires i < |s|
    ensures i <= e <= |s|
    ensures forall k :: i <= k < e ==> IsSpace(s[k])
  {
    match sep
    case BlankLine =>
      if s[i] != '\n' then i
      else
        var e := AfterLastNewline(s, i + 1, RunEnd(s, i + 1));
        if e > i + 1 then e else i
    case SentenceGap =>
      if i > 0 && s[i - 1] in ".!?" then RunEnd(s, i) else i
  }

  /** `re.split` from position i, with the current piece starting at start. */
  function SplitFrom(sep: Separator, s: string, start: nat, i: nat): (r: seq<string>)
    requires start <= i <= |s|
    decreases |s| - i
  {
    if i == |s| then [s[start..]]
    else
      var e := MatchEnd(sep, s, i);
      if e > i then [s[start..i]] + SplitFrom(sep, s, e, e)
      else SplitFrom(sep, s, start, i + 1)
  }

  function Split(sep: Separator, s: string): (r: seq<string>)
  {
    SplitFrom(sep, s, 0, 0)
  }

  lemma {:induction false} EraseSpaces(s: string)
    requires forall k :: 0 <= k < |s| ==> IsSpace(s[k])
    ensures Erase(s) == ""
  {
    if s != "" {
      EraseSpaces(s[..|s| - 1]);
    }
  }

  /** Joining two texts by whitespace adds no text. */
  lemma EraseJoin(a: string, sep: string, b: string)
    requires AllSpace(sep, 0, |sep|)
    ensures Erase(a + sep + b) == Erase(a) + Erase(b)
  {
    EraseSpaces(sep);
    hide Erase;
    EraseAppend(a, sep);
    EraseAppend(a + sep, b);
    assert Erase(a) + "" == Erase(a);
  }

  lemma EraseAllSingle(s: string)
    ensures EraseAll([s]) == Erase(s)
  {
    assert [s][..0] == [];
  }

  lemma SliceJoin(s: string, a: nat, b: nat)
    requires a <= b <= |s|
    ensures s[a..] == s[a..b] + s[b..]
  {
  }

  lemma EraseCut(s: string, start: nat, i: nat, e: nat)
    requires start <= i <= e <= |s| && AllSpace(s, i, e)
    ensures Erase(s[start..]) == Erase(s[start..i]) + Erase(s[e..])
  {
    EraseSpaces(s[i..e]);
    EraseAppend(s[i..e], s[e..]);
    EraseAppend(s[start..i], s[i..]);
    SliceJoin(s, i, e);
    SliceJoin(s, start, i);
  }

  /** Splitting loses only whitespace. */
  lemma {:induction false} SplitConserves(sep: Separator, s: string, start: nat, i: nat)
    requires start <= i <= |s|
    ensures EraseAll(SplitFrom(sep, s, start, i)) == Erase(s[start..])
    decreases |s| - i
  {
    if i < |s| {
      var e := MatchEnd(sep, s, i);
      if e > i {
        SplitConserves(sep, s, e, e);
        EraseCut(s, start, i, e);
        EraseAllAppend([s[start..i]], SplitFrom(sep, s, e, e));
        EraseAllSingle(s[start..i]);
      } else {
        SplitConserves(sep, s, start, i + 1);
      }
    } else {
      EraseAllSingle(s[start..]);
    }
  }

  /** Two newlines with only whitespace between them. */
  ghost predicate HasBlankLine(t: string)
  {
    exists p: nat, q: nat :: p < q < |t| && t[p] == '\n' && t[q] == '\n' && AllSpace(t, p, q)
  }

  predicate AllSpace(t: string, lo: nat, hi: nat)
    requires lo <= hi <= |t|
  {
    forall k :: lo <= k < hi ==> IsSpace(t[k])
  }

  /** The end of a sentence with whitespace right behind it. */
  ghost predicate HasSentenceGap(t: string)
  {
    exists k: nat :: k + 1 < |t| && t[k] in ".!?" && IsSpace(t[k + 1])
  }

  /** The text goes on with whitespace up to a newline. */
  ghost predicate OpensWithNewline(t: string)
  {
    exists q: nat :: q < |t| && t[q] == '\n' && AllSpace(t, 0, q)
  }

  /** Nothing in the piece separates. */
  ghost predicate Unbroken(sep: Separator, piece: string)
  {
    match sep
    case BlankLine => !HasBlankLine(piece)
    case SentenceGap => !HasSentenceGap(piece)
  }

  /** What separates a piece from the rest: a blank line, or the whitespace behind a sentence; all of it. */
  ghost predicate IsGap(sep: Separator, piece: string, gap: string, rest: string)
  {
    && gap != "" && AllSpace(gap, 0, |gap|)
    && match sep
       case BlankLine =>
         && |gap| >= 2 && gap[0] == '\n' && gap[|gap| - 1] == '\n'
         && !HasBlankLine(piece + gap[..1]) && !OpensWithNewline(rest)
       case SentenceGap =>
         && piece != "" && piece[|piece| - 1] in ".!?"
         && (rest != "" ==> !IsSpace(rest[0]))
  }

  /** The text is the pieces with gaps between them; every separator is a gap, and no other place is. */
  ghost predicate Parted(sep: Separator, s: string, pieces: seq<string>)
    decreases |pieces|
  {
    && pieces != [] && Unbroken(sep, pieces[0])
    && if |pieces| == 1 then s == pieces[0]
       else exists m: nat :: m <= |s| && PartedAt(sep, s, pieces[0], m) && Parted(sep, s[m..], pieces[1..])
  }

  /** The piece, and a gap up to position m. */
  ghost predicate PartedAt(sep: Separator, s: string, piece: string, m: nat)
  {
    |piece| <= m <= |s| && piece <= s && IsGap(sep, piece, s[|piece|..m], s[m..])
  }

  lemma NoBlankLineWithoutMatch(s: string, start: nat, i: nat, j: nat)
    requires start <= i && start <= j <= |s| && j <= i + 1
    requires forall p :: start <= p < i && p < |s| ==> MatchEnd(BlankLine, s, p) == p
    ensures !HasBlankLine(s[start..j])
  {
    var t := s[start..j];
    forall p: nat, q: nat | p < q < |t| && t[p] == '\n' && t[q] == '\n'
      ensures !AllSpace(t, p, q)
    {
      var sp, sq := start + p, start + q;
      assert MatchEnd(BlankLine, s, sp) == sp;
      var run := RunEnd(s, sp + 1);
      assert AfterLastNewline(s, sp + 1, run) == sp + 1;
      assert run <= sq;
      assert !IsSpace(s[run]) && t[run - start] == s[run];
    }
  }

  /** No paragraph contains a blank line. */
  lemma {:induction false} SplitLeavesNoBlankLine(s: string, start: nat, i: nat)
    requires start <= i <= |s|
    requires forall p :: start <= p < i ==> MatchEnd(BlankLine, s, p) == p
    ensures forall t :: t in SplitFrom(BlankLine, s, start, i) ==> !HasBlankLine(t)
    decreases |s| - i
  {
    if i == |s| {
      NoBlankLineWithoutMatch(s, start, i, i);
      assert s[start..i] == s[start..];
    } else {
      var e := MatchEnd(BlankLine, s, i);
      if e > i {
        NoBlankLineWithoutMatch(s, start, i, i);
        SplitLeavesNoBlankLine(s, e, e);
      } else {
        SplitLeavesNoBlankLine(s, start, i + 1);
      }
    }
  }

  lemma NoSentenceGapWithoutMatch(s: string, start: nat, i: nat)
    requires start <= i <= |s|
    requires forall p :: start <= p < i ==> MatchEnd(SentenceGap, s, p) == p
    ensures !HasSentenceGap(s[start..i])
  {
    var t := s[start..i];
    forall k: nat | k + 1 < |t| && t[k] in ".!?" ensures !IsSpace(t[k + 1]) {
      assert MatchEnd(SentenceGap, s, start + k + 1) == start + k + 1;
    }
  }

  lemma UnbrokenWithoutMatch(sep: Separator, s: string, start: nat, i: nat)
    requires start <= i <= |s|
    requires forall p :: start <= p < i ==> MatchEnd(sep, s, p) == p
    ensures Unbroken(sep, s[start..i])
  {
    match sep
    case BlankLine => NoBlankLineWithoutMatch(s, start, i, i);
    case SentenceGap => NoSentenceGapWithoutMatch(s, start, i);
  }

  lemma NoNewlineBehind(s: string, i: nat, e: nat)
    requires i < |s| && s[i] == '\n' && e == MatchEnd(BlankLine, s, i) && i < e
    ensures !OpensWithNewline(s[e..])
  {
    var run := RunEnd(s, i + 1);
    forall q: nat | q < |s[e..]| && s[e..][q] == '\n' ensures !AllSpace(s[e..], 0, q) {
      assert s[e + q] == '\n' && run < e + q;
      assert !IsSpace(s[e..][run - e]);
    }
  }

  lemma MatchIsGap(sep: Separator, s: string, start: nat, i: nat, e: nat)
    requires start <= i < |s| && i < e && e == MatchEnd(sep, s, i)
    requires start > 0 ==> IsSpace(s[start - 1])
    requires forall p :: start <= p < i ==> MatchEnd(sep, s, p) == p
    ensures IsGap(sep, s[start..i], s[i..e], s[e..])
  {
    match sep
    case SentenceGap =>
    case BlankLine =>
      NoBlankLineWithoutMatch(s, start, i, i + 1);
      NoNewlineBehind(s, i, e);
      hide HasBlankLine, OpensWithNewline;
      assert s[start..i] + s[i..e][..1] == s[start..i + 1];
  }

  /** Splitting cuts at every separator and nowhere else, and keeps the pieces as they are. */
  lemma {:induction false} SplitParts(sep: Separator, s: string, start: nat, i: nat)
    requires start <= i <= |s|
    requires start > 0 ==> IsSpace(s[start - 1])
    requires forall p :: start <= p < i ==> MatchEnd(sep, s, p) == p
    ensures Parted(sep, s[start..], SplitFrom(sep, s, start, i))
    decreases |s| - i
  {
    hide IsGap, Unbroken;
    if i == |s| {
      UnbrokenWithoutMatch(sep, s, start, i);
      assert s[start..i] == s[start..];
    } else {
      var e := MatchEnd(sep, s, i);
      if e > i {
        UnbrokenWithoutMatch(sep, s, start, i);
        MatchIsGap(sep, s, start, i, e);
        SplitParts(sep, s, e, e);
        PartOff(sep, s, start, i, e, SplitFrom(sep, s, e, e));
      } else {
        SplitParts(sep, s, start, i + 1);
      }
    }
  }

  /** No piece holds a separator, and every cut behind a sentence is behind its `.`, `!` or `?`. */
  lemma {:induction false} PartsUnbroken(sep: Separator, s: string, pieces: seq<string>)
    requires Parted(sep, s, pieces)
    ensures forall i :: 0 <= i < |pieces| ==> Unbroken(sep, pieces[i])
    ensures sep == SentenceGap ==>
      forall i :: 0 <= i < |pieces| - 1 ==> pieces[i] != "" && pieces[i][|pieces[i]| - 1] in ".!?"
    decreases |pieces|
  {
    hide Unbroken, PartedAt;
    if |pieces| > 1 {
      var m: nat :| m <= |s| && PartedAt(sep, s, pieces[0], m) && Parted(sep, s[m..], pieces[1..]);
      GapLength(sep, s, pieces[0], m);
      PartsUnbroken(sep, s[m..], pieces[1..]);
    }
  }

  lemma PartOff(sep: Separator, s: string, start: nat, i: nat, e: nat, pieces: seq<string>)
    requires start <= i <= e <= |s| && Unbroken(sep, s[start..i])
    requires IsGap(sep, s[start..i], s[i..e], s[e..]) && Parted(sep, s[e..], pieces)
    ensures Parted(sep, s[start..], [s[start..i]] + pieces)
  {
    hide IsGap, Unbroken;
    var text, piece, m := s[start..], s[start..i], e - start;
    assert text[|piece|..m] == s[i..e] && text[m..] == s[e..];
    assert PartedAt(sep, text, piece, m);
    assert ([piece] + pieces)[1..] == pieces;
  }

  /** A text with a gap behind its first piece is broken there. */
  lemma BrokenAtGap(sep: Separator, s: string, piece: string, m: nat, n: nat)
    requires PartedAt(sep, s, piece, m)
    requires match sep case BlankLine => m <= n <= |s| case SentenceGap => |piece| < n <= |s|
    ensures !Unbroken(sep, s[..n])
  {
    var gap := s[|piece|..m];
    match sep
    case BlankLine =>
      assert s[..n][|piece|] == gap[0] && s[..n][m - 1] == gap[|gap| - 1];
      assert forall k :: |piece| <= k < m - 1 ==> s[..n][k] == gap[k - |piece|];
      assert AllSpace(s[..n], |piece|, m - 1);
    case SentenceGap =>
      assert s[..n][|piece|] == gap[0] && s[..n][|piece| - 1] == piece[|piece| - 1];
  }

  /** A longer first piece would have a separator in it. */
  lemma LongerPieceIsBroken(sep: Separator, s: string, piece: string, m: nat, n: nat)
    requires PartedAt(sep, s, piece, m) && |piece| < n <= |s|
    requires sep == BlankLine ==> n < |s| && s[n] == '\n'
    ensures !Unbroken(sep, s[..if sep == BlankLine then n + 1 else n])
  {
    match sep
    case SentenceGap => BrokenAtGap(sep, s, piece, m, n);
    case BlankLine =>
      if m <= n + 1 {
        BrokenAtGap(sep, s, piece, m, n + 1);
      } else {
        var gap, t := s[|piece|..m], s[..n + 1];
        assert t[|piece|] == gap[0];
        assert forall k :: |piece| <= k < n ==> t[k] == gap[k - |piece|];
        assert AllSpace(t, |piece|, n);
      }
  }

  /** The first piece of a text ends at one place. */
  lemma NoEarlierPart(sep: Separator, s: string, piece: string, m: nat, other: string, n: nat)
    requires PartedAt(sep, s, piece, m) && PartedAt(sep, s, other, n) && Unbroken(sep, other)
    ensures |piece| >= |other|
  {
    GapLength(sep, s, other, n);
    var gap := s[|other|..n];
    assert other == s[..|other|] && other + gap[..1] == s[..|other| + 1];
    if |piece| < |other| {
      LongerPieceIsBroken(sep, s, piece, m, |other|);
    }
  }

  /** A gap does not stop short of another one. */
  lemma GapIsWhole(sep: Separator, s: string, piece: string, m: nat, n: nat)
    requires |piece| < m < n <= |s|
    requires forall k :: |piece| <= k < n ==> IsSpace(s[k])
    requires sep == BlankLine ==> s[n - 1] == '\n'
    ensures !IsGap(sep, piece, s[|piece|..m], s[m..])
  {
    var rest := s[m..];
    assert rest[0] == s[m] && rest[n - m - 1] == s[n - 1];
    assert AllSpace(rest, 0, n - m - 1);
  }

  lemma NoShorterGap(sep: Separator, s: string, piece: string, m: nat, n: nat)
    requires PartedAt(sep, s, piece, m) && PartedAt(sep, s, piece, n)
    ensures m >= n
  {
    if m < n {
      var gap := s[|piece|..n];
      assert forall k :: |piece| <= k < n ==> s[k] == gap[k - |piece|];
      GapLength(sep, s, piece, m);
      GapIsWhole(sep, s, piece, m, n);
    }
  }

  lemma OneFirstPart(sep: Separator, s: string, a: string, m: nat, b: string, n: nat)
    requires PartedAt(sep, s, a, m) && PartedAt(sep, s, b, n) && Unbroken(sep, a) && Unbroken(sep, b)
    ensures a == b && m == n
  {
    hide Unbroken, IsGap;
    NoEarlierPart(sep, s, a, m, b, n);
    NoEarlierPart(sep, s, b, n, a, m);
    assert a == s[..|a|] == b;
    NoShorterGap(sep, s, a, m, n);
    NoShorterGap(sep, s, a, n, m);
  }

  /** A text has one parting, so `Split` gives the pieces that the separators say and no others. */
  lemma {:induction false} SplitIsTheParting(sep: Separator, s: string, pieces: seq<string>)
    ensures pieces == Split(sep, s) <==> Parted(sep, s, pieces)
  {
    SplitParts(sep, s, 0, 0);
    assert s[0..] == s;
    if Parted(sep, s, pieces) {
      OneParting(sep, s, pieces, Split(sep, s));
    }
  }

  lemma {:induction false} OneParting(sep: Separator, s: string, a: seq<string>, b: seq<string>)
    requires Parted(sep, s, a) && Parted(sep, s, b)
    ensures a == b
    decreases |a|
  {
    hide Unbroken, PartedAt;
    assert s[..|s|] == s;
    if |a| > 1 {
      var m: nat :| m <= |s| && PartedAt(sep, s, a[0], m) && Parted(sep, s[m..], a[1..]);
      GapLength(sep, s, a[0], m);
      BrokenAtGap(sep, s, a[0], m, |s|);
      var n: nat :| n <= |s| && PartedAt(sep, s, b[0], n) && Parted(sep, s[n..], b[1..]);
      OneFirstPart(sep, s, a[0], m, b[0], n);
      OneParting(sep, s[m..], a[1..], b[1..]);
      assert a == [a[0]] + a[1..] && b == [b[0]] + b[1..];
    } else if |b| > 1 {
      var n: nat :| n <= |s| && PartedAt(sep, s, b[0], n) && Parted(sep, s[n..], b[1..]);
      GapLength(sep, s, b[0], n);
      BrokenAtGap(sep, s, b[0], n, |s|);
    }
  }

  lemma GapLength(sep: Separator, s: string, piece: string, m: nat)
    requires PartedAt(sep, s, piece, m)
    ensures |piece| < m <= |s|
    ensures sep == SentenceGap ==> piece != "" && piece[|piece| - 1] in ".!?"
  {
  }

  lemma EraseAllCons(head: string, tail: seq<string>)
    ensures EraseAll([head] + tail) == Erase(head) + EraseAll(tail)
  {
    EraseAllAppend([head], tail);
    EraseAllSingle(head);
  }

  lemma EraseAllHead(parts: seq<string>)
    requires parts != []
    ensures EraseAll(parts) == Erase(parts[0]) + EraseAll(parts[1..])
  {
    assert parts == [parts[0]] + parts[1..];
    EraseAllCons(parts[0], parts[1..]);
  }

  lemma EraseAllNext(parts: seq<string>, i: nat)
    requires i < |parts|
    ensures EraseAll(parts[..i + 1]) == EraseAll(parts[..i]) + Erase(parts[i])
  {
    assert parts[..i + 1][..i] == parts[..i];
  }

  /** `[part.strip() for part in parts if part.strip()]`. */
  function StripAll(parts: seq<string>): (r: seq<string>)
  {
    if parts == [] then []
    else
      var last := Strip(parts[|parts| - 1]);
      StripAll(parts[..|parts| - 1]) + (if last == "" then [] else [last])
  }

  predicate Trimmed(t: string)
  {
    t != "" && Stripped(t)
  }

  ghost predicate AllTrimmed(parts: seq<string>)
  {
    forall i :: 0 <= i < |parts| ==> Trimmed(parts[i])
  }

  lemma {:induction false} StripAllTrims(parts: seq<string>)
    ensures AllTrimmed(StripAll(parts))
  {
    if parts != [] {
      StripAllTrims(parts[..|parts| - 1]);
      StripIsStripped(parts[|parts| - 1]);
    }
  }

  lemma {:induction false} StripAllConserves(parts: seq<string>)
    ensures EraseAll(StripAll(parts)) == EraseAll(parts)
  {
    if parts != [] {
      var front, last := parts[..|parts| - 1], parts[|parts| - 1];
      StripAllConserves(front);
      EraseStrip(last);
      if Strip(last) != "" {
        EraseAllAppend(StripAll(front), [Strip(last)]);
        EraseAllSingle(Strip(last));
      } else {
        assert StripAll(parts) == StripAll(front);
      }
    }
  }

  /** The non-blank pieces of a text. */
  function Pieces(sep: Separator, text: string): (r: seq<string>)
  {
    StripAll(Split(sep, text))
  }

  /** Cutting a text into trimmed pieces loses and invents nothing but whitespace. */
  lemma PiecesConserve(sep: Separator, text: string)
    ensures EraseAll(Pieces(sep, text)) == Erase(text)
    ensures AllTrimmed(Pieces(sep, text))
  {
    SplitConserves(sep, text, 0, 0);
    StripAllConserves(Split(sep, text));
    StripAllTrims(Split(sep, text));
    assert text[0..] == text;
  }
}
