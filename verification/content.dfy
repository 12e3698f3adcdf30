/**
 * `extract_content`: the body text of a page is its paragraph texts, in document order,
 * without the last two paragraphs, each followed by a newline.
 *
 * A parsed document is represented by the texts of its `<p>` elements.
 */
module Content {
  import opened Wrappers

  /** The build profile decides what a `usize` subtraction below zero does. */
  datatype Profile = Debug | Release

  /** `usize` on a 64-bit target holds the naturals below this bound. */
  const UsizeModulus: nat := 0x1_0000_0000_0000_0000

  /** `a - b` on `usize`: a panic in a debug build, wrap-around in a release build. */
  function UsizeSub(a: nat, b: nat, profile: Profile): (r: Result<nat, Panic>)
    requires a < UsizeModulus && b < UsizeModulus
    ensures r.Failure? <==> a < b && profile == Debug
    ensures r.Failure? ==> r.error == SubtractOverflow
    ensures r.Success? ==> r.value < UsizeModulus && r.value == (a - b) % UsizeModulus
  {
    if b <= a then Success(a - b)
    else if profile == Debug then Failure(SubtractOverflow)
    else Success(a - b + UsizeModulus)
  }

  /** Each line followed by a newline, in order. */
  function Joined(lines: seq<string>): string {
    if |lines| == 0 then "" else Joined(lines[..|lines| - 1]) + lines[|lines| - 1] + "\n"
  }

  /**
   * How many leading paragraphs are kept: all but the last two, none of none, and, when the
   * subtraction wraps around, the single paragraph of a one-paragraph page.
   */
  function KeptCount(n: nat): nat {
    if n >= 2 then n - 2 else n
  }

  /** The reference definition of `extract_content`, case by case. */
  function Extract(paragraphs: seq<string>, profile: Profile): Result<string, Panic> {
    if |paragraphs| == 1 && profile == Debug then Failure(SubtractOverflow)
    else Success(Joined(paragraphs[..KeptCount(|paragraphs|)]))
  }

  /**
   * `extract_content` as written: one pass over the paragraphs; the bound `len - 2` is
   * computed in every iteration, so it is never computed for an empty page.
   */
  method ExtractContent(paragraphs: seq<string>, profile: Profile) returns (r: Result<string, Panic>)
    requires |paragraphs| < UsizeModulus
    ensures r.Failure? <==> |paragraphs| == 1 && profile == Debug
    ensures |paragraphs| == 0 ==> r == Success("")
    ensures |paragraphs| >= 2 ==> r == Success(Joined(paragraphs[..|paragraphs| - 2]))
    ensures |paragraphs| == 1 && profile == Release ==> r == Success(paragraphs[0] + "\n")
    ensures r == Extract(paragraphs, profile)
  {
    var result := "";
    var index := 0;
    while index < |paragraphs|
      invariant 0 <= index <= |paragraphs|
      invariant index > 0 ==> !(|paragraphs| == 1 && profile == Debug)
      invariant result == Joined(paragraphs[..if index <= KeptCount(|paragraphs|) then index else KeptCount(|paragraphs|)])
    {
      var bound := UsizeSub(|paragraphs|, 2, profile);
      if bound.Failure? {
        return Failure(bound.error);
      }
      if index < bound.value {
        assert paragraphs[..index + 1][..index] == paragraphs[..index];
        result := result + paragraphs[index] + "\n";
      }
      index := index + 1;
    }
    assert paragraphs[..|paragraphs|] == paragraphs;
    if |paragraphs| == 1 {
      JoinedSingle(paragraphs[0]);
      assert paragraphs[..1] == [paragraphs[0]];
    }
    return Success(result);
  }

  /** Joining distributes over sequence append. */
  lemma {:induction false} JoinedAppend(a: seq<string>, b: seq<string>)
    ensures Joined(a + b) == Joined(a) + Joined(b)
    decreases |b|
  {
    if |b| == 0 {
      assert a + b == a;
    } else {
      var b', ab := b[..|b| - 1], a + b;
      assert ab[..|ab| - 1] == a + b';
      assert ab[|ab| - 1] == b[|b| - 1];
      JoinedAppend(a, b');
      assert Joined(ab) == Joined(a + b') + b[|b| - 1] + "\n";
      assert Joined(b) == Joined(b') + b[|b| - 1] + "\n";
    }
  }


  /** One line joins to itself and a newline. */
  lemma JoinedSingle(line: string)
    ensures Joined([line]) == line + "\n"
  {
    assert [line][..0] == [];
  }

  /** The same join, built from the front: the first line, a newline, then the rest. */
  lemma JoinedCons(line: string, rest: seq<string>)
    ensures Joined([line] + rest) == line + "\n" + Joined(rest)
  {
    JoinedAppend([line], rest);
    JoinedSingle(line);
  }

  /** The sum over the lines of their length plus one for the newline. */
  function LineLengths(lines: seq<string>): nat {
    if |lines| == 0 then 0 else |lines[0]| + 1 + LineLengths(lines[1..])
  }

  lemma {:induction false} JoinedLength(lines: seq<string>)
    ensures |Joined(lines)| == LineLengths(lines)
    decreases |lines|
  {
    if |lines| != 0 {
      assert lines == [lines[0]] + lines[1..];
      JoinedCons(lines[0], lines[1..]);
      JoinedLength(lines[1..]);
    }
  }

  /** Line `i`, followed by a newline, comes right after the join of the lines before it. */
  lemma JoinedLineAt(lines: seq<string>, i: nat)
    requires i < |lines|
    ensures Joined(lines[..i]) + lines[i] + "\n" <= Joined(lines)
  {
    var upTo, after := lines[..i + 1], lines[i + 1..];
    assert lines == upTo + after;
    JoinedAppend(upTo, after);
    assert upTo[..i] == lines[..i];
    assert Joined(upTo) == Joined(lines[..i]) + lines[i] + "\n";
  }

  /** The offset of the first character of a line without a newline, or its length. */
  function LineEnd(s: string): (k: nat)
    ensures k <= |s|
    ensures forall j :: 0 <= j < k ==> s[j] != '\n'
    ensures k < |s| ==> s[k] == '\n'
  {
    if |s| == 0 || s[0] == '\n' then 0 else 1 + LineEnd(s[1..])
  }

  /** Cuts a text into its lines; the newline ending each line is dropped. */
  function SplitLines(s: string): seq<string>
    decreases |s|
  {
    if |s| == 0 then []
    else
      var k := LineEnd(s);
      [s[..k]] + (if k < |s| then SplitLines(s[k + 1..]) else [])
  }

  /** A line without a newline ends where its newline is. */
  lemma LineEndOfLine(line: string, rest: string)
    requires forall j :: 0 <= j < |line| ==> line[j] != '\n'
    ensures LineEnd(line + "\n" + rest) == |line|
  {
    var s := line + "\n" + rest;
    assert forall j :: 0 <= j < |line| ==> s[j] == line[j];
    assert s[|line|] == '\n';
  }

  /** Splitting undoes joining when no line contains a newline. */
  lemma {:induction false} SplitJoined(lines: seq<string>)
    requires forall i, j :: 0 <= i < |lines| && 0 <= j < |lines[i]| ==> lines[i][j] != '\n'
    ensures SplitLines(Joined(lines)) == lines
    decreases |lines|
  {
    if |lines| != 0 {
      var line, rest := lines[0], lines[1..];
      assert lines == [line] + rest;
      JoinedCons(line, rest);
      var s := line + "\n" + Joined(rest);
      LineEndOfLine(line, Joined(rest));
      assert s[..|line|] == line;
      assert s[|line| + 1..] == Joined(rest);
      SplitJoined(rest);
    }
  }

  /** With at least two paragraphs, the text is the first n - 2 of them, each newline-terminated. */
  lemma ExtractDropsLastTwo(paragraphs: seq<string>, profile: Profile)
    requires |paragraphs| >= 2
    ensures Extract(paragraphs, profile) == Success(Joined(paragraphs[..|paragraphs| - 2]))
    ensures forall i :: 0 <= i < |paragraphs| - 2 ==>
      Joined(paragraphs[..i]) + paragraphs[i] + "\n" <= Extract(paragraphs, profile).value
  {
    var kept := paragraphs[..|paragraphs| - 2];
    forall i | 0 <= i < |paragraphs| - 2
      ensures Joined(paragraphs[..i]) + paragraphs[i] + "\n" <= Joined(kept)
    {
      assert kept[..i] == paragraphs[..i];
      JoinedLineAt(kept, i);
    }
  }

  /** The last two paragraphs never reach the text: changing them changes nothing. */
  lemma ExtractIgnoresLastTwo(ps: seq<string>, qs: seq<string>, profile: Profile)
    requires |ps| == |qs| >= 2
    requires ps[..|ps| - 2] == qs[..|qs| - 2]
    ensures Extract(ps, profile) == Extract(qs, profile)
  {
  }

  /** A page with no paragraphs gives the empty text and one paragraph is the underflow edge. */
  lemma ExtractShortPages(paragraphs: seq<string>, profile: Profile)
    requires |paragraphs| < 2
    ensures |paragraphs| == 0 ==> Extract(paragraphs, profile) == Success("")
    ensures |paragraphs| == 1 ==>
      Extract(paragraphs, profile) == if profile == Debug then Failure(SubtractOverflow)
                                      else Success(paragraphs[0] + "\n")
  {
    if |paragraphs| == 1 && profile == Release {
      assert paragraphs[..1] == [paragraphs[0]];
      JoinedSingle(paragraphs[0]);
    }
  }

  /**
   * The length of the text is the sum of the kept paragraphs' lengths plus one newline each,
   * and a non-empty text always ends with a newline.
   */
  lemma ExtractLength(paragraphs: seq<string>, profile: Profile)
    requires Extract(paragraphs, profile).Success?
    ensures |Extract(paragraphs, profile).value| == LineLengths(paragraphs[..KeptCount(|paragraphs|)])
    ensures Extract(paragraphs, profile).value != "" ==>
      Extract(paragraphs, profile).value[|Extract(paragraphs, profile).value| - 1] == '\n'
    ensures Extract(paragraphs, profile).value == "" <==> KeptCount(|paragraphs|) == 0
  {
    var kept := paragraphs[..KeptCount(|paragraphs|)];
    JoinedLength(kept);
    if |kept| != 0 {
      assert LineLengths(kept) > 0;
    }
  }

  /** When no paragraph holds a newline, the kept paragraphs can be read back from the text. */
  lemma ExtractSplitsBack(paragraphs: seq<string>, profile: Profile)
    requires Extract(paragraphs, profile).Success?
    requires forall i, j :: 0 <= i < KeptCount(|paragraphs|) && 0 <= j < |paragraphs[i]| ==> paragraphs[i][j] != '\n'
    ensures SplitLines(Extract(paragraphs, profile).value) == paragraphs[..KeptCount(|paragraphs|)]
  {
    SplitJoined(paragraphs[..KeptCount(|paragraphs|)]);
  }
}
