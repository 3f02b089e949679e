/**
 * The java.lang.String operations the core relies on, over ASCII.
 */
module Strings {

  /** Character.toLowerCase restricted to ASCII letters. */
  function LowerChar(c: char): char
  {
    if 'A' <= c <= 'Z' then (c as int + 32) as char else c
  }

  /** String.toLowerCase, ASCII letters only. */
  function Lower(s: string): (r: string)
    ensures |r| == |s|
    ensures forall i :: 0 <= i < |s| ==> r[i] == LowerChar(s[i])
  {
    seq(|s|, i requires 0 <= i < |s| => LowerChar(s[i]))
  }

  /** Lower-casing text without upper-case letters changes nothing. */
  lemma LowerIdentity(s: string)
    requires forall i :: 0 <= i < |s| ==> !('A' <= s[i] <= 'Z')
    ensures Lower(s) == s
  {
  }

  /** String.startsWith. */
  predicate StartsWith(s: string, prefix: string)
  {
    |prefix| <= |s| && s[..|prefix|] == prefix
  }

  predicate NoneIn(s: string, seps: set<char>)
  {
    forall i :: 0 <= i < |s| ==> s[i] !in seps
  }

  /** Splitting at every separator character, keeping empty pieces. */
  function Split(s: string, seps: set<char>): (r: seq<string>)
    ensures |r| >= 1
    decreases |s|
  {
    if s == [] then [""]
    else if s[0] in seps then [""] + Split(s[1..], seps)
    else
      var rest := Split(s[1..], seps);
      [[s[0]] + rest[0]] + rest[1..]
  }

  /** Drops the empty pieces at the end. */
  function DropTrailingEmpty(pieces: seq<string>): (r: seq<string>)
    ensures |r| <= |pieces| && r == pieces[..|r|]
    ensures forall i :: |r| <= i < |pieces| ==> pieces[i] == ""
    decreases |pieces|
  {
    if pieces == [] || pieces[|pieces| - 1] != "" then pieces
    else DropTrailingEmpty(pieces[..|pieces| - 1])
  }

  /** String.split with a one-character class as the pattern: the input alone
      when no separator occurs, otherwise every piece with the trailing empty
      ones dropped. */
  function JavaSplit(s: string, seps: set<char>): seq<string>
  {
    if NoneIn(s, seps) then [s] else DropTrailingEmpty(Split(s, seps))
  }

  lemma {:induction false} SplitNoSeparator(s: string, seps: set<char>)
    requires NoneIn(s, seps)
    ensures Split(s, seps) == [s]
    decreases |s|
  {
    if s != [] {
      SplitNoSeparator(s[1..], seps);
      assert [s[0]] + s[1..] == s;
    }
  }

  /** A piece free of separators followed by a separator splits off as the
      first piece. */
  lemma {:induction false} SplitAtSeparator(a: string, c: char, b: string, seps: set<char>)
    requires NoneIn(a, seps) && c in seps
    ensures Split(a + [c] + b, seps) == [a] + Split(b, seps)
    decreases |a|
  {
    if a == [] {
      assert a + [c] + b == [c] + b;
      assert ([c] + b)[1..] == b;
    } else {
      SplitAtSeparator(a[1..], c, b, seps);
      assert (a + [c] + b)[1..] == a[1..] + [c] + b;
      assert [a[0]] + a[1..] == a;
    }
  }

  /** When the last piece is not empty, String.split keeps every piece. */
  lemma LastPieceKept(s: string, seps: set<char>)
    requires Split(s, seps)[|Split(s, seps)| - 1] != ""
    ensures JavaSplit(s, seps) == (if NoneIn(s, seps) then [s] else Split(s, seps))
  {
  }

  /** Two separator-free pieces joined by one separator split back into them. */
  lemma SplitTwoPieces(a: string, c: char, b: string, seps: set<char>)
    requires NoneIn(a, seps) && NoneIn(b, seps) && c in seps
    ensures Split(a + [c] + b, seps) == [a, b]
  {
    SplitAtSeparator(a, c, b, seps);
    SplitNoSeparator(b, seps);
  }

  /** No piece contains a separator. */
  lemma {:induction false} SplitPiecesClean(s: string, seps: set<char>)
    ensures forall k :: 0 <= k < |Split(s, seps)| ==> NoneIn(Split(s, seps)[k], seps)
    decreases |s|
  {
    if s != [] {
      SplitPiecesClean(s[1..], seps);
    }
  }

  lemma JavaSplitPiecesClean(s: string, seps: set<char>)
    ensures forall k :: 0 <= k < |JavaSplit(s, seps)| ==> NoneIn(JavaSplit(s, seps)[k], seps)
  {
    SplitPiecesClean(s, seps);
  }
}
