/**
 * PayloadFrame: the producer metadata attached to every payload that crosses
 * between the halves of a task pair.  The constructor tokenises the
 * producer's version string; getVersion renders the fields back.
 */
module PayloadFrame {
  import opened Wrappers
  import opened JavaLong
  import opened Strings

  /** The version fields; -1 marks an absent number. */
  datatype Version = Version(major: Long, minor: Long, revision: Long, snapshot: bool)

  datatype Payload = Payload(name: string, version: Version)

  const Unset := Version(-1, -1, -1, false)

  /** The character class of the pattern "[. -]". */
  const Separators: set<char> := {'.', ' ', '-'}

  /** s.equalsIgnoreCase("snapshot"), for ASCII. */
  predicate IsSnapshotToken(s: string)
  {
    Lower(s) == "snapshot"
  }

  /** One pass of the constructor's loop body. */
  function ApplyToken(v: Version, token: string): Version
  {
    if IsSnapshotToken(token) then v.(snapshot := true)
    else match ParseLong(token)
      case None => v
      case Some(n) =>
        if v.major == -1 then v.(major := n)
        else if v.minor == -1 then v.(minor := n)
        else if v.revision == -1 then v.(revision := n)
        else v
  }

  function ApplyTokens(v: Version, tokens: seq<string>): Version
    decreases |tokens|
  {
    if tokens == [] then v else ApplyTokens(ApplyToken(v, tokens[0]), tokens[1..])
  }

  /** The fields the constructor leaves for a version string. */
  function ParseVersion(s: string): Version
  {
    ApplyTokens(Unset, JavaSplit(s, Separators))
  }

  /** A field is absent (-1) or a non-negative number. */
  predicate FieldOk(x: Long)
  {
    x == -1 || x >= 0
  }

  /** The shape every parsed version has: fields filled in order. */
  predicate WellFormed(v: Version)
  {
    && FieldOk(v.major) && FieldOk(v.minor) && FieldOk(v.revision)
    && (v.minor != -1 ==> v.major != -1)
    && (v.revision != -1 ==> v.minor != -1)
  }

  /** The text getVersion() appends for one numeric field. */
  function FieldText(x: Long, sep: string): string
  {
    if x != -1 then sep + LongToString(x) else ""
  }

  /** getVersion(). */
  function Render(v: Version): string
  {
    FieldText(v.major, "") + FieldText(v.minor, ".") + FieldText(v.revision, ".")
    + SuffixText(v.snapshot)
  }

  /** The constructor: splits the version string and applies each token. */
  method NewPayload(name: string, version: string) returns (p: Payload)
    ensures p.name == name && p.version == ParseVersion(version)
  {
    var tokens := JavaSplit(version, Separators);
    var v := Unset;
    for i := 0 to |tokens|
      invariant ApplyTokens(v, tokens[i..]) == ParseVersion(version)
    {
      assert tokens[i..][1..] == tokens[i + 1..];
      v := ApplyToken(v, tokens[i]);
    }
    assert tokens[|tokens|..] == [];
    p := Payload(name, v);
  }

  /** getVersion(): appends each present field, then the snapshot suffix. */
  method GetVersion(p: Payload) returns (r: string)
    ensures r == Render(p.version)
  {
    var v := p.version;
    r := "";
    if v.major != -1 {
      r := r + LongToString(v.major);
    }
    assert r == FieldText(v.major, "");
    if v.minor != -1 {
      r := r + ("." + LongToString(v.minor));
    }
    assert r == FieldText(v.major, "") + FieldText(v.minor, ".");
    if v.revision != -1 {
      r := r + ("." + LongToString(v.revision));
    }
    assert r == FieldText(v.major, "") + FieldText(v.minor, ".") + FieldText(v.revision, ".");
    if v.snapshot {
      r := r + "-SNAPSHOT";
    }
    assert "-SNAPSHOT" == SuffixText(true);
  }

  /** A token that is neither "snapshot" nor a long changes nothing; an empty
      token is one of them. */
  lemma UnusableTokenIsIgnored(v: Version, token: string)
    requires !IsSnapshotToken(token) && ParseLong(token).None?
    ensures ApplyToken(v, token) == v
  {
  }

  /** With no usable token the fields stay unset. */
  lemma {:induction false} NoUsableTokens(tokens: seq<string>)
    requires forall k :: 0 <= k < |tokens| ==> !IsSnapshotToken(tokens[k]) && ParseLong(tokens[k]).None?
    ensures ApplyTokens(Unset, tokens) == Unset
    decreases |tokens|
  {
    if tokens != [] {
      NoUsableTokens(tokens[1..]);
    }
  }

  /** The snapshot token never changes a number, and sets the flag. */
  lemma SnapshotTokenOnlySetsFlag(v: Version, token: string)
    requires IsSnapshotToken(token)
    ensures ApplyToken(v, token) == v.(snapshot := true)
  {
  }

  /** A numeric token fills the first absent field among major, minor and
      revision; once all three are present it is ignored. */
  lemma NumericTokenFillsNextField(v: Version, token: string, n: Long)
    requires !IsSnapshotToken(token) && ParseLong(token) == Some(n)
    ensures v.major == -1 ==> ApplyToken(v, token) == v.(major := n)
    ensures v.major != -1 && v.minor == -1 ==> ApplyToken(v, token) == v.(minor := n)
    ensures v.major != -1 && v.minor != -1 && v.revision == -1 ==> ApplyToken(v, token) == v.(revision := n)
    ensures v.major != -1 && v.minor != -1 && v.revision != -1 ==> ApplyToken(v, token) == v
  {
  }

  lemma {:induction false} ApplyTokensWellFormed(v: Version, tokens: seq<string>)
    requires WellFormed(v)
    requires forall k :: 0 <= k < |tokens| ==> NoneIn(tokens[k], Separators)
    ensures WellFormed(ApplyTokens(v, tokens))
    decreases |tokens|
  {
    if tokens != [] {
      var t := tokens[0];
      assert NoneIn(t, Separators);
      ApplyTokensWellFormed(ApplyToken(v, t), tokens[1..]);
    }
  }

  /** Every parsed version is well formed: since '-' separates tokens no
      field is negative except the -1 marker, and fields fill in order. */
  lemma ParsedVersionWellFormed(s: string)
    ensures WellFormed(ParseVersion(s))
  {
    JavaSplitPiecesClean(s, Separators);
    ApplyTokensWellFormed(Unset, JavaSplit(s, Separators));
  }

  /** What getVersion() prints for a present field is one clean numeric token. */
  lemma NumberToken(n: Long)
    requires n >= 0
    ensures var d := LongToString(n);
            d != "" && NoneIn(d, Separators) && !IsSnapshotToken(d) && ParseLong(d) == Some(n)
  {
    NatToStringDigits(n);
    ParseLongToString(n);
    var d := LongToString(n);
    assert IsDigit(d[0]);
  }

  const SnapshotWord: string := "SNAPSHOT"

  /** The suffix text: "-SNAPSHOT" or nothing. */
  function SuffixText(snapshot: bool): string
  {
    if snapshot then ['-'] + SnapshotWord else ""
  }

  /** The tokens the last printed number and the suffix split into. */
  lemma SplitLastNumber(d: string, snapshot: bool)
    requires NoneIn(d, Separators)
    ensures Split(d + SuffixText(snapshot), Separators) == [d] + SuffixTokens(snapshot)
  {
    if snapshot {
      assert d + SuffixText(snapshot) == d + ['-'] + SnapshotWord;
      SplitTwoPieces(d, '-', SnapshotWord, Separators);
    } else {
      assert d + SuffixText(snapshot) == d;
      SplitNoSeparator(d, Separators);
    }
  }

  /** The tokens the printed text of a well-formed version splits into. */
  function PrintedTokens(v: Version): seq<string>
  {
    var numbers :=
      (if v.major != -1 then [LongToString(v.major)] else [])
      + (if v.minor != -1 then [LongToString(v.minor)] else [])
      + (if v.revision != -1 then [LongToString(v.revision)] else []);
    if numbers == [] then [""] + SuffixTokens(v.snapshot) else numbers + SuffixTokens(v.snapshot)
  }

  /** Splitting the printed text yields exactly the printed tokens. */
  lemma RenderSplits(v: Version)
    requires WellFormed(v)
    ensures JavaSplit(Render(v), Separators) == PrintedTokens(v)
  {
    if v.major == -1 {
      RenderSplitsNoNumber(v);
    } else if v.minor == -1 {
      RenderSplitsOne(v);
    } else if v.revision == -1 {
      RenderSplitsTwo(v);
    } else {
      RenderSplitsThree(v);
    }
  }

  lemma RenderSplitsNoNumber(v: Version)
    requires WellFormed(v) && v.major == -1
    ensures JavaSplit(Render(v), Separators) == PrintedTokens(v)
  {
    assert Render(v) == SuffixText(v.snapshot);
    assert PrintedTokens(v) == [""] + SuffixTokens(v.snapshot);
    if v.snapshot {
      DashSnapshotSplits();
    } else {
      assert NoneIn(Render(v), Separators);
    }
  }

  /** "-SNAPSHOT" alone splits into an empty token and the word. */
  lemma DashSnapshotSplits()
    ensures JavaSplit(['-'] + SnapshotWord, Separators) == ["", SnapshotWord]
  {
    var text := ['-'] + SnapshotWord;
    assert text == [] + ['-'] + SnapshotWord;
    SplitTwoPieces([], '-', SnapshotWord, Separators);
    assert text[0] in Separators;
  }

  lemma RenderSplitsOne(v: Version)
    requires WellFormed(v) && v.major != -1 && v.minor == -1
    ensures JavaSplit(Render(v), Separators) == PrintedTokens(v)
  {
    NumberToken(v.major);
    var ma := LongToString(v.major);
    assert Render(v) == DottedText([ma], v.snapshot);
    assert PrintedTokens(v) == [ma] + SuffixTokens(v.snapshot);
    JavaSplitNumbers([ma], v.snapshot);
  }

  lemma RenderSplitsTwo(v: Version)
    requires WellFormed(v) && v.minor != -1 && v.revision == -1
    ensures JavaSplit(Render(v), Separators) == PrintedTokens(v)
  {
    NumberToken(v.major);
    NumberToken(v.minor);
    var ma := LongToString(v.major);
    var mi := LongToString(v.minor);
    RenderTwoNumbers(v);
    DottedCons(ma, [mi], v.snapshot);
    assert [ma] + [mi] == [ma, mi];
    assert PrintedTokens(v) == [ma, mi] + SuffixTokens(v.snapshot);
    JavaSplitNumbers([ma, mi], v.snapshot);
  }

  lemma RenderTwoNumbers(v: Version)
    requires v.major != -1 && v.minor != -1 && v.revision == -1
    ensures Render(v) == LongToString(v.major) + ['.'] + DottedText([LongToString(v.minor)], v.snapshot)
  {
    var ma := LongToString(v.major);
    var mi := LongToString(v.minor);
    var sfx := SuffixText(v.snapshot);
    assert Render(v) == ma + (['.'] + mi) + "" + sfx;
  }

  lemma RenderSplitsThree(v: Version)
    requires WellFormed(v) && v.revision != -1
    ensures JavaSplit(Render(v), Separators) == PrintedTokens(v)
  {
    NumberToken(v.major);
    NumberToken(v.minor);
    NumberToken(v.revision);
    var ma := LongToString(v.major);
    var mi := LongToString(v.minor);
    var re := LongToString(v.revision);
    RenderThreeNumbers(v);
    DottedCons(mi, [re], v.snapshot);
    DottedCons(ma, [mi, re], v.snapshot);
    assert [mi] + [re] == [mi, re];
    assert [ma] + [mi, re] == [ma, mi, re];
    assert PrintedTokens(v) == [ma, mi, re] + SuffixTokens(v.snapshot);
    JavaSplitNumbers([ma, mi, re], v.snapshot);
  }

  lemma RenderThreeNumbers(v: Version)
    requires v.major != -1 && v.minor != -1 && v.revision != -1
    ensures var mi := LongToString(v.minor);
            Render(v) == LongToString(v.major) + ['.'] + (mi + ['.'] + DottedText([LongToString(v.revision)], v.snapshot))
  {
    var ma := LongToString(v.major);
    var mi := LongToString(v.minor);
    var re := LongToString(v.revision);
    var sfx := SuffixText(v.snapshot);
    assert Render(v) == ma + (['.'] + mi) + (['.'] + re) + sfx;
  }

  lemma DottedCons(x: string, rest: seq<string>, snapshot: bool)
    requires rest != []
    ensures DottedText([x] + rest, snapshot) == x + ['.'] + DottedText(rest, snapshot)
  {
    assert ([x] + rest)[1..] == rest;
  }

  function SuffixTokens(snapshot: bool): seq<string>
  {
    if snapshot then [SnapshotWord] else []
  }

  /** Numbers joined by dots, then the suffix. */
  function DottedText(numbers: seq<string>, snapshot: bool): string
    requires numbers != []
    decreases |numbers|
  {
    if |numbers| == 1 then numbers[0] + SuffixText(snapshot)
    else numbers[0] + ['.'] + DottedText(numbers[1..], snapshot)
  }

  /** Dotted non-empty separator-free numbers split back into themselves. */
  lemma {:induction false} SplitNumbers(numbers: seq<string>, snapshot: bool)
    requires numbers != []
    requires forall k :: 0 <= k < |numbers| ==> numbers[k] != "" && NoneIn(numbers[k], Separators)
    ensures Split(DottedText(numbers, snapshot), Separators) == numbers + SuffixTokens(snapshot)
    decreases |numbers|
  {
    if |numbers| == 1 {
      SplitLastNumber(numbers[0], snapshot);
    } else {
      SplitNumbers(numbers[1..], snapshot);
      SplitAtSeparator(numbers[0], '.', DottedText(numbers[1..], snapshot), Separators);
      assert [numbers[0]] + (numbers[1..] + SuffixTokens(snapshot)) == numbers + SuffixTokens(snapshot);
    }
  }

  /** The same through String.split, which keeps every piece here because the
      last one is never empty. */
  lemma JavaSplitNumbers(numbers: seq<string>, snapshot: bool)
    requires numbers != []
    requires forall k :: 0 <= k < |numbers| ==> numbers[k] != "" && NoneIn(numbers[k], Separators)
    ensures JavaSplit(DottedText(numbers, snapshot), Separators) == numbers + SuffixTokens(snapshot)
  {
    var text := DottedText(numbers, snapshot);
    SplitNumbers(numbers, snapshot);
    LastPieceKept(text, Separators);
    if |numbers| == 1 && !snapshot {
      assert text == numbers[0];
    } else if |numbers| == 1 {
      assert text[|numbers[0]|] == '-';
    } else {
      assert text[|numbers[0]|] == '.';
    }
  }

  lemma ApplySnapshotSuffix(v: Version, snapshot: bool)
    ensures ApplyTokens(v, SuffixTokens(snapshot)) == v.(snapshot := v.snapshot || snapshot)
  {
    if snapshot {
      assert IsSnapshotToken(SnapshotWord);
      assert ApplyTokens(ApplyToken(v, SnapshotWord), []) == v.(snapshot := true);
    }
  }

  lemma {:induction false} ApplyTokensAppend(v: Version, a: seq<string>, b: seq<string>)
    ensures ApplyTokens(v, a + b) == ApplyTokens(ApplyTokens(v, a), b)
    decreases |a|
  {
    if a != [] {
      assert (a + b)[1..] == a[1..] + b;
      ApplyTokensAppend(ApplyToken(v, a[0]), a[1..], b);
    } else {
      assert a + b == b;
    }
  }

  /** The printed numbers, applied in order, fill the fields in order. */
  lemma ApplyPrintedNumbers(v: Version)
    requires WellFormed(v) && v.major != -1
    ensures ApplyTokens(Unset, PrintedTokens(v)[..|PrintedTokens(v)| - |SuffixTokens(v.snapshot)|])
            == v.(snapshot := false)
  {
    var tokens := PrintedTokens(v);
    var numbers := tokens[..|tokens| - |SuffixTokens(v.snapshot)|];
    var ma := LongToString(v.major);
    var u1 := Unset.(major := v.major);
    ApplyOneNumber(Unset, v.major);
    if v.minor == -1 {
      assert tokens == [ma] + SuffixTokens(v.snapshot);
      assert numbers == [ma];
    } else {
      var mi := LongToString(v.minor);
      var u2 := u1.(minor := v.minor);
      ApplyOneNumber(u1, v.minor);
      ApplyTokensAppend(Unset, [ma], [mi]);
      assert [ma] + [mi] == [ma, mi];
      if v.revision == -1 {
        assert tokens == [ma, mi] + SuffixTokens(v.snapshot);
        assert numbers == [ma, mi];
      } else {
        var re := LongToString(v.revision);
        ApplyOneNumber(u2, v.revision);
        ApplyTokensAppend(Unset, [ma, mi], [re]);
        assert [ma, mi] + [re] == [ma, mi, re];
        assert tokens == [ma, mi, re] + SuffixTokens(v.snapshot);
        assert numbers == [ma, mi, re];
      }
    }
  }

  /** A printed number, applied alone, fills the first absent field. */
  lemma ApplyOneNumber(u: Version, n: Long)
    requires n >= 0
    ensures var d := LongToString(n);
            ApplyTokens(u, [d]) ==
              if u.major == -1 then u.(major := n)
              else if u.minor == -1 then u.(minor := n)
              else if u.revision == -1 then u.(revision := n)
              else u
  {
    NumberToken(n);
    var d := LongToString(n);
    assert [d][1..] == [];
  }

  /** Applying the printed tokens to the unset version rebuilds it. */
  lemma PrintedTokensRebuild(v: Version)
    requires WellFormed(v)
    ensures ApplyTokens(Unset, PrintedTokens(v)) == v
  {
    var suffix := SuffixTokens(v.snapshot);
    var tokens := PrintedTokens(v);
    var numbers := tokens[..|tokens| - |suffix|];
    if v.major == -1 {
      assert numbers == [""];
      assert ApplyTokens(Unset, [""]) == ApplyTokens(Unset, []);
    } else {
      ApplyPrintedNumbers(v);
    }
    assert tokens == numbers + suffix;
    ApplyTokensAppend(Unset, numbers, suffix);
    ApplySnapshotSuffix(ApplyTokens(Unset, numbers), v.snapshot);
  }

  /** Round trip: parsing the text getVersion() prints gives back the same
      four fields, for every well-formed version (which every parsed
      version is, by ParsedVersionWellFormed). */
  lemma ParseRenderRoundTrip(v: Version)
    requires WellFormed(v)
    ensures ParseVersion(Render(v)) == v
  {
    RenderSplits(v);
    PrintedTokensRebuild(v);
  }
}
