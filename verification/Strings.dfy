/** split and join of strings.hpp. */
module Strings {
  import opened Sequences

  // util::count
  function Occurrences(s: string, c: char): nat {
    if s == [] then 0 else Occurrences(s[..|s| - 1], c) + if s[|s| - 1] == c then 1 else 0
  }

  method Count(s: string, c: char) returns (result: nat)
    ensures result == Occurrences(s, c)
  {
    result := 0;
    for i := 0 to |s|
      invariant result == Occurrences(s[..i], c)
    {
      assert s[..i + 1][..i] == s[..i];
      result := result + if s[i] == c then 1 else 0;
    }
    assert s[..|s|] == s;
  }

  /** find_first_of: the first position at or after from that holds a character of delim, or |s| for npos. */
  method FindFirstOf(s: string, delim: string, from: nat) returns (pos: nat)
    requires from <= |s|
    ensures pos == from + FirstOf(s[from..], delim)
  {
    pos := from;
    while pos < |s| && s[pos] !in delim
      invariant from <= pos <= |s|
      invariant forall k :: from <= k < pos ==> s[k] !in delim
    {
      pos := pos + 1;
    }
    FirstOfIs(s[from..], delim, pos - from);
  }

  function FirstOf(s: string, delim: string): (pos: nat)
    ensures pos <= |s|
    ensures forall k :: 0 <= k < pos ==> s[k] !in delim
    ensures pos < |s| ==> s[pos] in delim
  {
    if s == [] || s[0] in delim then 0 else 1 + FirstOf(s[1..], delim)
  }

  lemma FirstOfIs(s: string, delim: string, pos: nat)
    requires pos <= |s| && forall k :: 0 <= k < pos ==> s[k] !in delim
    requires pos < |s| ==> s[pos] in delim
    ensures FirstOf(s, delim) == pos
  {
    var first := FirstOf(s, delim);
  }

  // The pieces between delimiters: all of them, or at most max when max is not zero.
  function Pieces(s: string, delim: string, max: nat): seq<string>
    decreases |s|
  {
    var pos := FirstOf(s, delim);
    if pos == |s| || max == 1 then [s]
    else [s[..pos]] + Pieces(s[pos + 1..], delim, Less(max))
  }

  // The limit left after one piece.
  function Less(max: nat): nat { if max == 0 then 0 else max - 1 }

  lemma PiecesCut(s: string, delim: string, max: nat)
    requires FirstOf(s, delim) < |s| && max != 1
    ensures var pos := FirstOf(s, delim);
            Pieces(s, delim, max) == [s[..pos]] + Pieces(s[pos + 1..], delim, Less(max))
  {
  }

  lemma PiecesStep(s: string, prev: nat, current: nat, delim: string, max: nat)
    requires prev <= current < |s| && current == prev + FirstOf(s[prev..], delim) && max != 1
    ensures Pieces(s[prev..], delim, max) == [s[prev..current]] + Pieces(s[current + 1..], delim, Less(max))
  {
    hide FirstOf, Pieces;
    var rest := s[prev..];
    assert rest[..current - prev] == s[prev..current];
    assert rest[current - prev + 1..] == s[current + 1..];
    PiecesCut(rest, delim, max);
  }

  lemma PiecesEnd(s: string, delim: string, max: nat)
    requires FirstOf(s, delim) == |s| || max == 1
    ensures Pieces(s, delim, max) == [s]
  {
  }

  method Split(from: string, delim: string, max: nat) returns (result: seq<string>)
    ensures result == Pieces(from, delim, max)
  {
    hide Pieces, FirstOf;
    result := [];
    var prev, count := 0, 0;
    var current := FindFirstOf(from, delim, 0);
    assert from[0..] == from;
    ghost var left := max;
    while (max == 0 || count + 1 < max) && current != |from|
      invariant prev <= |from| && current == prev + FirstOf(from[prev..], delim)
      invariant max == 0 || count < max
      invariant left == if max == 0 then 0 else max - count
      invariant result + Pieces(from[prev..], delim, left) == Pieces(from, delim, max)
      decreases |from| - prev
    {
      PiecesStep(from, prev, current, delim, left);
      Regroup(result, [from[prev..current]], Pieces(from[current + 1..], delim, Less(left)));
      if max != 0 { count := count + 1; }
      result := result + [from[prev..current]];
      prev := current + 1;
      left := Less(left);
      current := FindFirstOf(from, delim, prev);
    }
    PiecesEnd(from[prev..], delim, left);
    result := result + [from[prev..]];
  }

  function Joined(list: seq<string>, delim: string): string {
    if list == [] then ""
    else if |list| == 1 then list[0]
    else Joined(list[..|list| - 1], delim) + delim + list[|list| - 1]
  }

  method Join(list: seq<string>, delim: string) returns (result: string)
    ensures result == Joined(list, delim)
  {
    var separator := "";
    result := "";
    for i := 0 to |list|
      invariant result == Joined(list[..i], delim)
      invariant separator == if i == 0 then "" else delim
    {
      assert list[..i + 1][..i] == list[..i];
      result := result + separator + list[i];
      separator := delim;
    }
    assert list[..|list|] == list;
  }

  // ------------------------------------------------------------------------------------------- inverse laws

  lemma {:induction false} JoinedFront(first: string, rest: seq<string>, delim: string)
    requires rest != []
    ensures Joined([first] + rest, delim) == first + delim + Joined(rest, delim)
  {
    var list := [first] + rest;
    if |rest| > 1 {
      var front, last := rest[..|rest| - 1], rest[|rest| - 1];
      JoinedFront(first, front, delim);
      assert list[..|list| - 1] == [first] + front;
      var joined := Joined(front, delim);
      assert (first + delim + joined) + delim + last == first + delim + (joined + delim + last);
    } else {
      assert list[..1] == [first];
      assert Joined([first], delim) == first;
    }
  }

  lemma PiecesSome(s: string, delim: string, max: nat)
    ensures Pieces(s, delim, max) != []
  {
  }

  lemma JoinedOne(s: string, delim: string)
    ensures Joined([s], delim) == s && Joined([], delim) == ""
  {
  }

  // Splitting at one character and joining with it gives the text back, whatever the limit.
  lemma {:induction false} JoinSplit(s: string, c: char, max: nat)
    ensures Joined(Pieces(s, [c], max), [c]) == s
    decreases |s|
  {
    hide FirstOf, Pieces, Joined;
    var pos := FirstOf(s, [c]);
    if pos < |s| && max != 1 {
      PiecesCut(s, [c], max);
      PiecesSome(s[pos + 1..], [c], Less(max));
      JoinSplit(s[pos + 1..], c, Less(max));
      JoinedFront(s[..pos], Pieces(s[pos + 1..], [c], Less(max)), [c]);
      CutAt(s, pos);
      Regroup(s[..pos], [c], s[pos + 1..]);
    } else {
      PiecesEnd(s, [c], max);
      JoinedOne(s, [c]);
    }
  }

  lemma {:induction false} OccurrencesConcat(a: string, b: string, c: char)
    ensures Occurrences(a + b, c) == Occurrences(a, c) + Occurrences(b, c)
  {
    if b == [] {
      assert a + b == a;
    } else {
      OccurrencesConcat(a, b[..|b| - 1], c);
      assert (a + b)[..|a + b| - 1] == a + b[..|b| - 1];
    }
  }

  lemma {:induction false} NoOccurrences(s: string, c: char)
    ensures Occurrences(s, c) == 0 <==> c !in s
  {
    if s != [] { NoOccurrences(s[..|s| - 1], c); }
  }

  lemma OccurrencesLed(tail: string, c: char)
    ensures Occurrences([c] + tail, c) == 1 + Occurrences(tail, c)
  {
    OccurrencesConcat([c], tail, c);
    assert [c][..0] == [];
  }

  lemma OccurrencesAround(s: string, c: char, pos: nat)
    requires pos == FirstOf(s, [c])
    ensures Occurrences(s, c) == if pos < |s| then 1 + Occurrences(s[pos + 1..], c) else 0
  {
    hide Occurrences, FirstOf;
    if pos < |s| {
      var front, tail := s[..pos], s[pos + 1..];
      assert s[pos] == c;
      CutAt(s, pos);
      OccurrencesConcat(front, [c] + tail, c);
      OccurrencesLed(tail, c);
      NoOccurrences(front, c);
    } else {
      NoOccurrences(s, c);
    }
  }

  // How many pieces there are, and that only a capped last piece may still hold the delimiter.
  lemma {:induction false} SplitCount(s: string, c: char, max: nat)
    ensures var n, pieces := 1 + Occurrences(s, c), Pieces(s, [c], max);
            && |pieces| == (if max == 0 || n < max then n else max)
            && (forall i :: 0 <= i < |pieces| && c in pieces[i] ==> i == |pieces| - 1 && |pieces| == max)
    decreases |s|
  {
    hide Occurrences, FirstOf, Pieces;
    var pos := FirstOf(s, [c]);
    OccurrencesAround(s, c, pos);
    if pos < |s| && max != 1 {
      PiecesCut(s, [c], max);
      SplitCount(s[pos + 1..], c, Less(max));
      assert c !in s[..pos];
    } else {
      PiecesEnd(s, [c], max);
    }
  }

  // Conversely, joining pieces free of the delimiter and splitting again gives them back.
  lemma {:induction false} SplitJoin(list: seq<string>, c: char)
    requires list != [] && forall i :: 0 <= i < |list| ==> c !in list[i]
    ensures Pieces(Joined(list, [c]), [c], 0) == list
  {
    if |list| == 1 {
      FirstOfIs(list[0], [c], |list[0]|);
    } else {
      var rest := list[1..];
      assert list == [list[0]] + rest;
      JoinedFront(list[0], rest, [c]);
      SplitJoin(rest, c);
      var s := Joined(list, [c]);
      assert s == list[0] + [c] + Joined(rest, [c]);
      FirstOfIs(s, [c], |list[0]|);
      assert s[..|list[0]|] == list[0] && s[|list[0]| + 1..] == Joined(rest, [c]);
    }
  }

  /** Exactly the non-empty lists of pieces free of the delimiter survive joining and splitting. */
  lemma SplitJoinExactly(list: seq<string>, c: char)
    ensures Pieces(Joined(list, [c]), [c], 0) == list <==> list != [] && forall i :: 0 <= i < |list| ==> c !in list[i]
  {
    hide Joined, Pieces;
    SplitCount(Joined(list, [c]), c, 0);
    if list != [] && forall i :: 0 <= i < |list| ==> c !in list[i] { SplitJoin(list, c); }
  }

  // ------------------------------------------------------------------------------------------- any delimiter set

  // The delimiters that split dropped.
  function Cuts(s: string, delim: string, max: nat): string
    decreases |s|
  {
    var pos := FirstOf(s, delim);
    if pos == |s| || max == 1 then [] else s[pos..pos + 1] + Cuts(s[pos + 1..], delim, Less(max))
  }

  function Woven(pieces: seq<string>, cuts: string): string
    requires |pieces| == |cuts| + 1
  {
    if cuts == [] then pieces[0] else pieces[0] + ([cuts[0]] + Woven(pieces[1..], cuts[1..]))
  }

  lemma CutsEnd(s: string, delim: string, max: nat)
    requires FirstOf(s, delim) == |s| || max == 1
    ensures Cuts(s, delim, max) == []
  {
  }

  lemma CutsCut(s: string, delim: string, max: nat)
    requires FirstOf(s, delim) < |s| && max != 1
    ensures var pos := FirstOf(s, delim); Cuts(s, delim, max) == s[pos..pos + 1] + Cuts(s[pos + 1..], delim, Less(max))
  {
    hide FirstOf;
  }

  // Only the last piece of a capped split may hold a delimiter.
  ghost predicate Clean(pieces: seq<string>, delim: string, max: nat) {
    && (max != 0 ==> |pieces| <= max)
    && forall i, k :: 0 <= i < |pieces| && 0 <= k < |pieces[i]| && pieces[i][k] in delim ==>
                        i == |pieces| - 1 && |pieces| == max
  }

  lemma CleanFront(piece: string, rest: seq<string>, delim: string, max: nat)
    requires max != 1 && Clean(rest, delim, Less(max)) && rest != []
    requires forall k :: 0 <= k < |piece| ==> piece[k] !in delim
    ensures Clean([piece] + rest, delim, max)
  {
    var pieces := [piece] + rest;
    forall i, k | 0 <= i < |pieces| && 0 <= k < |pieces[i]| && pieces[i][k] in delim
      ensures i == |pieces| - 1 && |pieces| == max
    {
      assert pieces[i] == rest[i - 1];
    }
  }

  /** For any set of delimiters and any limit, splitting drops only delimiters, one between each two pieces, and
      leaves none behind but in the last piece of a capped split: the pieces with what was dropped between them are the
      text. */
  lemma {:induction false} SplitLosesOnlyCuts(s: string, delim: string, max: nat)
    ensures var pieces, cuts := Pieces(s, delim, max), Cuts(s, delim, max);
            && |pieces| == |cuts| + 1 && Woven(pieces, cuts) == s
            && (forall i :: 0 <= i < |cuts| ==> cuts[i] in delim)
            && Clean(pieces, delim, max)
    decreases |s|
  {
    hide Pieces, Cuts, FirstOf, Clean;
    var pos := FirstOf(s, delim);
    if pos < |s| && max != 1 {
      var rest, left := Pieces(s[pos + 1..], delim, Less(max)), Cuts(s[pos + 1..], delim, Less(max));
      SplitLosesOnlyCuts(s[pos + 1..], delim, Less(max));
      PiecesCut(s, delim, max);
      CutsCut(s, delim, max);
      CleanFront(s[..pos], rest, delim, max);
      CutAt(s, pos);
      assert s[pos..pos + 1] == [s[pos]];
      assert ([s[..pos]] + rest)[1..] == rest && ([s[pos]] + left)[1..] == left;
    } else {
      PiecesEnd(s, delim, max);
      CutsEnd(s, delim, max);
      CleanAlone(s, delim, max);
    }
  }

  lemma CleanAlone(s: string, delim: string, max: nat)
    requires FirstOf(s, delim) == |s| || max == 1
    ensures Clean([s], delim, max)
  {
  }
}
