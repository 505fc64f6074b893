/** The class-name reader of the YOLO detector: it scans the lines of a
    dataset description for the `names:` section, whose entries are lines of
    the form `<index>: <name>` ending at the first line without a colon,
    and stores the text after each entry's first colon as the class names.
    The file arrives already split into lines; a file that cannot be opened
    is None. */
module CocoYaml {
  import opened Wrappers

  const NamesKey: string := "names:"

  /** t occurs in s starting at index i. */
  predicate OccursAt(s: string, t: string, i: int) {
    0 <= i && i + |t| <= |s| && s[i..i + |t|] == t
  }

  /** `s.find(t) != npos`: t occurs somewhere in s. */
  predicate Contains(s: string, t: string) {
    exists i | 0 <= i <= |s| - |t| :: OccursAt(s, t, i)
  }

  predicate HasNamesKey(line: string) {
    Contains(line, NamesKey)
  }

  predicate HasColon(line: string) {
    ':' in line
  }

  /** A line holding the `names:` key holds a colon. */
  lemma NamesKeyHasColon(line: string)
    requires HasNamesKey(line)
    ensures HasColon(line)
  {
    var i :| 0 <= i <= |line| - |NamesKey| && OccursAt(line, NamesKey, i);
    assert line[i + 5] == line[i..i + 6][5] == ':';
  }

  // ---------------------------------------------------------------
  // The section, stated without the scanning loop
  // ---------------------------------------------------------------

  /** One past the last of lines[..n] that holds the `names:` key, or 0 when
      none does. */
  function LastNamesBefore(lines: seq<string>, n: nat): (r: nat)
    requires n <= |lines|
    ensures r <= n
    ensures r == 0 <==> forall j :: 0 <= j < n ==> !HasNamesKey(lines[j])
    ensures r > 0 ==> HasNamesKey(lines[r - 1])
    ensures forall j :: r <= j < n ==> !HasNamesKey(lines[j])
  {
    if n == 0 then 0
    else if HasNamesKey(lines[n - 1]) then n
    else LastNamesBefore(lines, n - 1)
  }

  /** Line k ends the section: it has no colon and a `names:` line came
      before it. */
  predicate IsTerminator(lines: seq<string>, k: nat)
    requires k < |lines|
  {
    !HasColon(lines[k]) && LastNamesBefore(lines, k) > 0
  }

  /** The first terminator at or after line i, or 0 when there is none. */
  function FirstTerminatorFrom(lines: seq<string>, i: nat): (r: nat)
    requires i <= |lines|
    ensures r == 0 ==> forall k :: i <= k < |lines| ==> !IsTerminator(lines, k)
    ensures r > 0 ==> i <= r < |lines| && IsTerminator(lines, r)
    ensures r > 0 ==> forall k :: i <= k < r ==> !IsTerminator(lines, k)
    decreases |lines| - i
  {
    if i == |lines| then 0
    else if IsTerminator(lines, i) then
      assert LastNamesBefore(lines, i) > 0;
      i
    else FirstTerminatorFrom(lines, i + 1)
  }

  /** The index of the terminator line, or 0 when the section never ends. */
  function SectionEnd(lines: seq<string>): nat {
    FirstTerminatorFrom(lines, 0)
  }

  /** One past the last `names:` line before the terminator (before the end
      of the file when there is no terminator), or 0. */
  function SectionStart(lines: seq<string>): nat {
    var e := SectionEnd(lines);
    LastNamesBefore(lines, if e > 0 then e else |lines|)
  }

  /** The lines between the `names:` key and the terminator are all entries:
      each has a colon and none repeats the key; the line before them holds
      the key, and the terminator has no colon. When there is no terminator
      the section is empty, whatever follows the key. */
  lemma {:induction false} SectionShape(lines: seq<string>)
    ensures SectionEnd(lines) > 0 ==>
      && 0 < SectionStart(lines) <= SectionEnd(lines) < |lines|
      && HasNamesKey(lines[SectionStart(lines) - 1])
      && !HasColon(lines[SectionEnd(lines)])
      && forall k :: SectionStart(lines) <= k < SectionEnd(lines) ==>
           HasColon(lines[k]) && !HasNamesKey(lines[k])
    ensures SectionEnd(lines) == 0 && SectionStart(lines) > 0 ==>
      forall k :: SectionStart(lines) <= k < |lines| ==> HasColon(lines[k])
  {
    var e := SectionEnd(lines);
    var s := SectionStart(lines);
    if e > 0 {
      forall k | s <= k < e
        ensures HasColon(lines[k]) && !HasNamesKey(lines[k])
      {
        LastNamesBeforeGrows(lines, s, k);
        assert !IsTerminator(lines, k);
      }
    } else if s > 0 {
      forall k | s <= k < |lines|
        ensures HasColon(lines[k])
      {
        LastNamesBeforeGrows(lines, s, k);
        assert !IsTerminator(lines, k);
      }
    }
  }

  /** A `names:` line before line k keeps LastNamesBefore positive there. */
  lemma {:induction false} LastNamesBeforeGrows(lines: seq<string>, m: nat, k: nat)
    requires 0 < m <= k <= |lines| && HasNamesKey(lines[m - 1])
    ensures LastNamesBefore(lines, k) >= m
    decreases k
  {
    if k > m && !HasNamesKey(lines[k - 1]) {
      LastNamesBeforeGrows(lines, m, k - 1);
    }
  }

  // ---------------------------------------------------------------
  // Splitting an entry at its first colon
  // ---------------------------------------------------------------

  /** The index of the first c in s, or |s| when there is none. */
  function FirstIndex(s: string, c: char): (k: nat)
    ensures k <= |s|
    ensures k < |s| ==> s[k] == c
    ensures c !in s[..k]
  {
    if s == [] then 0
    else if s[0] == c then 0
    else
      var k := 1 + FirstIndex(s[1..], c);
      assert s[..k] == [s[0]] + s[1..][..k - 1];
      k
  }

  /** What `getline(ss, name, ':')` followed by `getline(ss, name)` leaves in
      `name`: the text after the first colon (empty when the colon ends the
      line), or, for a line without a colon, the whole line. */
  function Remainder(line: string): (r: string)
    ensures HasColon(line) ==> line == line[..FirstIndex(line, ':')] + [':'] + r
    ensures !HasColon(line) ==> r == line
  {
    var k := FirstIndex(line, ':');
    assert k < |line| ==> line[..k] + [':'] + line[k + 1..] == line;
    if k < |line| then line[k + 1..] else line
  }

  /** The remainder is exactly what follows the first colon: splitting a
      line as a colon-free prefix, a colon and a rest always gives the
      remainder as the rest, and the line is rebuilt from the three. */
  lemma {:induction false} RemainderSplitsAtFirstColon(line: string, prefix: string, rest: string)
    requires line == prefix + [':'] + rest && ':' !in prefix
    ensures Remainder(line) == rest
  {
    var k := FirstIndex(line, ':');
    assert line[|prefix|] == ':';
    assert line[k + 1..] == rest;
  }

  /** The remainder of each line, in order. */
  function RemaindersOf(ls: seq<string>): (r: seq<string>)
    ensures |r| == |ls|
    ensures forall k :: 0 <= k < |ls| ==> r[k] == Remainder(ls[k])
  {
    if ls == [] then [] else [Remainder(ls[0])] + RemaindersOf(ls[1..])
  }

  /** The class names the section yields, in file order. */
  function ClassNames(lines: seq<string>): seq<string> {
    var s := SectionStart(lines);
    var e := SectionEnd(lines);
    if e > s then RemaindersOf(lines[s..e]) else []
  }

  // ---------------------------------------------------------------
  // The reader
  // ---------------------------------------------------------------

  /** The scanning loop: the start moves past every `names:` line, and the
      first colon-free line seen after one ends the scan. */
  method ScanSection(lines: seq<string>) returns (start: nat, end: nat)
    ensures start == SectionStart(lines) && end == SectionEnd(lines)
  {
    start := 0;
    end := 0;
    var i := 0;
    while i < |lines|
      invariant 0 <= i <= |lines|
      invariant start == LastNamesBefore(lines, i)
      invariant end == 0
      invariant FirstTerminatorFrom(lines, 0) == FirstTerminatorFrom(lines, i)
    {
      if HasNamesKey(lines[i]) {
        NamesKeyHasColon(lines[i]);
        start := i + 1;
      } else if start > 0 && !HasColon(lines[i]) {
        end := i;
        break;
      }
      i := i + 1;
    }
  }

  /** The extraction loop: one name per line of [start, end), in order. */
  method ExtractNames(lines: seq<string>, start: nat, end: nat) returns (names: seq<string>)
    requires end <= |lines|
    ensures end > start ==> names == RemaindersOf(lines[start..end])
    ensures end <= start ==> names == []
  {
    names := [];
    if end <= start {
      return;
    }
    var i := start;
    while i < end
      invariant start <= i <= end
      invariant |names| == i - start
      invariant forall k :: 0 <= k < |names| ==> names[k] == Remainder(lines[start + k])
    {
      names := names + [Remainder(lines[i])];
      i := i + 1;
    }
    assert names == RemaindersOf(lines[start..end]);
  }

  /** The detector's field that the reader fills. */
  class Detector {
    var classes: seq<string>

    constructor ()
      ensures classes == []
    {
      classes := [];
    }
  }

  /** A file that cannot be opened gives status 1 and leaves the class
      names alone; otherwise the class names are replaced by the section's
      names and the status is 0. */
  method ReadCocoYaml(d: Detector, file: Option<seq<string>>) returns (status: int)
    modifies d
    ensures file.None? ==> status == 1 && d.classes == old(d.classes)
    ensures file.Some? ==> status == 0 && d.classes == ClassNames(file.value)
  {
    if file.None? {
      return 1;
    }
    var lines := file.value;
    var start, end := ScanSection(lines);
    var names := ExtractNames(lines, start, end);
    d.classes := names;
    return 0;
  }

  /** A line whose colons all sit within its first five characters cannot
      hold the six-character `names:` key. */
  lemma NoKeyWithoutLateColon(line: string)
    requires forall j :: 5 <= j < |line| ==> line[j] != ':'
    ensures !HasNamesKey(line)
  {
    forall i | 0 <= i <= |line| - |NamesKey|
      ensures !OccursAt(line, NamesKey, i)
    {
      assert line[i..i + 6][5] == line[i + 5] != ':';
    }
  }

  /** The usual layout: a key line, the `names:` key, indexed entries, then a
      blank line. Each name keeps the blank that follows its colon. */
  lemma TypicalFile()
    ensures ClassNames(["path: coco", "names:", "  0: person", "  1: bicycle", "", "download: x"])
            == [" person", " bicycle"]
  {
    var lines := ["path: coco", "names:", "  0: person", "  1: bicycle", "", "download: x"];
    TypicalSection(lines);
    assert ClassNames(lines) == RemaindersOf(lines[2..4]);
    assert lines[2..4] == ["  0: person", "  1: bicycle"];
    PersonEntry();
    BicycleEntry();
  }

  lemma TypicalSection(lines: seq<string>)
    requires lines == ["path: coco", "names:", "  0: person", "  1: bicycle", "", "download: x"]
    ensures SectionStart(lines) == 2 && SectionEnd(lines) == 4
  {
    NoKeyWithoutLateColon(lines[0]);
    assert OccursAt(lines[1], NamesKey, 0);
    NoKeyWithoutLateColon(lines[2]);
    NoKeyWithoutLateColon(lines[3]);
    assert lines[2][3] == ':' && lines[3][3] == ':';
    assert !HasColon(lines[4]);
    assert LastNamesBefore(lines, 4) == 2;
    assert FirstTerminatorFrom(lines, 3) == 4;
    assert SectionEnd(lines) == 4;
  }

  /** A file whose `names:` section runs to the last line never finds its
      terminator and yields no names at all. */
  lemma UnterminatedSectionYieldsNothing()
    ensures ClassNames(["names:", "  0: person"]) == []
  {
    var lines := ["names:", "  0: person"];
    assert OccursAt(lines[0], NamesKey, 0);
    assert lines[1][3] == ':';
    assert SectionEnd(lines) == 0;
  }

  lemma PersonEntry()
    ensures Remainder("  0: person") == " person"
  {
    var l := "  0: person";
    assert l == "  0" + [':'] + " person";
    RemainderSplitsAtFirstColon(l, "  0", " person");
  }

  lemma BicycleEntry()
    ensures Remainder("  1: bicycle") == " bicycle"
  {
    var l := "  1: bicycle";
    assert l == "  1" + [':'] + " bicycle";
    RemainderSplitsAtFirstColon(l, "  1", " bicycle");
  }
}
