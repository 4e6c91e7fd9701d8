/**
 * The team card's initials: `name.split(" ").map(n => n[0]).join("")`.
 * Splitting on the single space character gives one segment per gap,
 * including empty ones; an empty segment's missing first character joins as
 * nothing.
 */
module Team {
  import ListView

  const Space: char := ' '

  /** The segments joined back with single spaces. */
  function Join(parts: seq<string>): string
    requires |parts| >= 1
    decreases |parts|
  {
    if |parts| == 1 then parts[0] else parts[0] + [Space] + Join(parts[1..])
  }

  /** The number of spaces in `s`. */
  function SpaceCount(s: string): nat {
    if s == [] then 0 else (if s[0] == Space then 1 else 0) + SpaceCount(s[1..])
  }

  /**
   * `s.split(" ")`: the maximal space-free pieces between spaces, one more
   * than there are spaces, which joined with spaces give `s` back.
   */
  function Split(s: string): (parts: seq<string>)
    ensures |parts| == SpaceCount(s) + 1
    ensures forall i :: 0 <= i < |parts| ==> Space !in parts[i]
    ensures Join(parts) == s
    decreases |s|
  {
    if s == [] then [""]
    else
      var rest := Split(s[1..]);
      assert s == [s[0]] + s[1..];
      if s[0] == Space then
        assert ([""] + rest)[1..] == rest;
        [""] + rest
      else
        var parts := [[s[0]] + rest[0]] + rest[1..];
        assert parts[1..] == rest[1..];
        assert |rest| > 1 ==> Join(rest) == rest[0] + [Space] + Join(rest[1..]);
        parts
  }

  /** A name without spaces is a single segment. */
  lemma {:induction false} SplitWithoutSpace(s: string)
    requires Space !in s
    ensures Split(s) == [s]
    decreases |s|
  {
    if s != [] {
      SplitWithoutSpace(s[1..]);
      assert [s[0]] + s[1..] == s;
    }
  }

  /** Splitting around a space splits each side on its own. */
  lemma {:induction false} SplitAroundSpace(a: string, b: string)
    ensures Split(a + [Space] + b) == Split(a) + Split(b)
    decreases |a|
  {
    var s := a + [Space] + b;
    if a == [] {
      assert s[1..] == b;
    } else {
      assert s[1..] == a[1..] + [Space] + b;
      SplitAroundSpace(a[1..], b);
    }
  }

  /** The first character of a segment, or nothing for an empty segment. */
  function Head(part: string): string {
    if part == "" then "" else [part[0]]
  }

  /** The first characters of the segments, in segment order. */
  function Heads(parts: seq<string>): string {
    if parts == [] then "" else Head(parts[0]) + Heads(parts[1..])
  }

  lemma {:induction false} HeadsAppend(a: seq<string>, b: seq<string>)
    ensures Heads(a + b) == Heads(a) + Heads(b)
    decreases |a|
  {
    if a != [] {
      assert (a + b)[1..] == a[1..] + b;
      HeadsAppend(a[1..], b);
    } else {
      assert a + b == b;
    }
  }

  predicate NonEmpty(part: string) { part != "" }

  /**
   * Reference reading of the initials: one character per non-empty segment,
   * the first character of that segment, in segment order.
   */
  lemma {:induction false} HeadsAreFirstCharsOfNonEmptySegments(parts: seq<string>)
    ensures var kept := ListView.Filter(parts, NonEmpty);
      |Heads(parts)| == |kept| &&
      forall j :: 0 <= j < |kept| ==> kept[j] != "" && Heads(parts)[j] == kept[j][0]
    decreases |parts|
  {
    if parts != [] {
      HeadsAreFirstCharsOfNonEmptySegments(parts[1..]);
      var rest := ListView.Filter(parts[1..], NonEmpty);
      var hs := Heads(parts[1..]);
      if NonEmpty(parts[0]) {
        assert ListView.Filter(parts, NonEmpty) == [parts[0]] + rest;
        assert Heads(parts) == [parts[0][0]] + hs;
      } else {
        assert ListView.Filter(parts, NonEmpty) == rest;
        assert Heads(parts) == hs;
      }
    }
  }

  /** The initials of a team member's name. */
  function Initials(name: string): (r: string)
    ensures |r| <= SpaceCount(name) + 1
    ensures forall i :: 0 <= i < |r| ==> r[i] != Space
  {
    var parts := Split(name);
    HeadsAreFirstCharsOfNonEmptySegments(parts);
    var kept := ListView.Filter(parts, NonEmpty);
    assert forall j :: 0 <= j < |kept| ==> kept[j] in parts;
    Heads(parts)
  }

  /**
   * The initials are the first characters of the non-empty space-separated
   * segments, in order: leading, trailing and doubled spaces add nothing, and
   * the number of initials is the number of non-empty segments.
   */
  lemma InitialsAreFirstChars(name: string)
    ensures var kept := ListView.Filter(Split(name), NonEmpty);
      |Initials(name)| == |kept| &&
      forall j :: 0 <= j < |kept| ==> kept[j] != "" && Initials(name)[j] == kept[j][0]
    ensures |Initials(name)| <= SpaceCount(name) + 1
  {
    HeadsAreFirstCharsOfNonEmptySegments(Split(name));
  }

  /** A name without spaces gives its first character; the empty name gives nothing. */
  lemma InitialsOfOneWord(name: string)
    requires Space !in name
    ensures Initials(name) == (if name == "" then "" else [name[0]])
  {
    SplitWithoutSpace(name);
    assert [name][1..] == [];
    assert Heads([name]) == Head(name) + Heads([]);
    assert Head(name) + "" == Head(name);
  }

  /** The initials of a name with a space in it are the initials of either side. */
  lemma InitialsAroundSpace(a: string, b: string)
    ensures Initials(a + [Space] + b) == Initials(a) + Initials(b)
  {
    SplitAroundSpace(a, b);
    HeadsAppend(Split(a), Split(b));
  }

  /** Splitting undoes joining when no segment holds a space. */
  lemma {:induction false} SplitJoin(parts: seq<string>)
    requires |parts| >= 1
    requires forall i :: 0 <= i < |parts| ==> Space !in parts[i]
    ensures Split(Join(parts)) == parts
    decreases |parts|
  {
    if |parts| == 1 {
      SplitWithoutSpace(parts[0]);
    } else {
      SplitJoin(parts[1..]);
      SplitAroundSpace(parts[0], Join(parts[1..]));
      SplitWithoutSpace(parts[0]);
      assert [parts[0]] + parts[1..] == parts;
    }
  }

  /** The founder's name, "Prof. dr. Irawan Satriotomo, Ph.D.", word by word. */
  const FounderWords: seq<string> := ["Prof.", "dr.", "Irawan", "Satriotomo,", "Ph.D."]
  const FounderName: string :=
    FounderWords[0] + " " + FounderWords[1] + " " + FounderWords[2] + " " + FounderWords[3] + " " + FounderWords[4]

  lemma FounderNameIsJoinedWords()
    ensures Join(FounderWords) == FounderName
  {
    var w := FounderWords;
    assert w[4..][0] == w[4] && |w[4..]| == 1;
    assert w[3..][1..] == w[4..] && w[3..][0] == w[3];
    assert w[2..][1..] == w[3..] && w[2..][0] == w[2];
    assert w[1..][1..] == w[2..] && w[1..][0] == w[1];
    assert Join(w[3..]) == w[3] + " " + w[4];
    assert Join(w[2..]) == w[2] + " " + w[3] + " " + w[4];
    assert Join(w[1..]) == w[1] + " " + w[2] + " " + w[3] + " " + w[4];
  }

  lemma FounderWordHeads()
    ensures Heads(FounderWords) == "PdISP"
  {
  }

  /** Case is kept and punctuation is not a separator: the founder's name gives "PdISP". */
  lemma FounderInitials()
    ensures Initials(FounderName) == "PdISP"
  {
    FounderNameIsJoinedWords();
    SplitJoin(FounderWords);
    FounderWordHeads();
  }
}
