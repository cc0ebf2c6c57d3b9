/** Rewriting any text at all, also one with lines that are no settings. */
module Rewriting {
  import opened Machine
  import opened Text
  import opened ListSpec
  import opened ConfigSpec
  import C = ConfigTheorems

  // ---------- Lines of a text ----------

  /** A line as it is read: a newline can only be its last character. */
  predicate OneLine(line: string) { line != "" && forall i | 0 <= i < |line| - 1 :: line[i] != '\n' }

  predicate Ended(text: string) { text == "" || text[|text| - 1] == '\n' }

  /** The lines of a text; only the last may lack its newline. */
  predicate IsFile(lines: seq<string>) {
    && (forall i | 0 <= i < |lines| :: OneLine(lines[i]))
    && (forall i | 0 <= i < |lines| - 1 :: Ended(lines[i]))
  }

  lemma {:induction false} LinesAreFile(text: string)
    ensures IsFile(Lines(text))
    decreases |text|
  {
    if text != "" {
      var n := LineEnd(text);
      LinesAreFile(text[n..]);
      assert forall i | 0 <= i < n - 1 :: text[..n][i] == text[i];
      assert n < |text| ==> text[..n][n - 1] == '\n';
    }
  }

  lemma FirstLine(text: string) returns (line: string, rest: string)
    requires text != "" && Ended(text)
    ensures text == line + rest && IsLine(line) && Ended(rest) && Lines(text) == [line] + Lines(rest)
  {
    var n := LineEnd(text);
    line, rest := text[..n], text[n..];
    assert line[n - 1] == text[n - 1] == '\n' && forall i | 0 <= i < n - 1 :: line[i] == text[i];
    assert rest != "" ==> rest[|rest| - 1] == text[|text| - 1];
  }

  lemma LineInFront(line: string, text: string)
    requires IsLine(line)
    ensures Lines(line + text) == [line] + Lines(text)
  {
    LineEndIs(line, text);
    assert (line + text)[..|line|] == line && (line + text)[|line|..] == text;
  }

  lemma {:induction false} LinesConcat(a: string, b: string)
    requires Ended(a)
    ensures Lines(a + b) == Lines(a) + Lines(b)
    decreases |a|
  {
    if a == "" {
      assert a + b == b;
    } else {
      var l, r := FirstLine(a);
      assert a + b == l + (r + b);
      LineInFront(l, r + b);
      LinesConcat(r, b);
      Associative([l], Lines(r), Lines(b));
    }
  }

  lemma {:induction false} LinesOfOne(line: string)
    requires OneLine(line)
    ensures Lines(line) == [line]
  {
    var n := LineEnd(line);
    assert n == |line|;
    assert line[..n] == line && line[n..] == "";
  }

  // ---------- What lines say ----------

  /** What the first line says that says something. */
  ghost function Say(lines: seq<string>, other: string): Found {
    if lines == [] then Skip
    else if ReadLine(lines[0], other) != Skip then ReadLine(lines[0], other)
    else Say(lines[1..], other)
  }

  function Code(found: Found): int {
    match found
    case Skip => UNSET
    case Number(v) => v
    case TooLarge => CFGOPEN_OR_MEMSET_ERROR
  }

  function Or(a: Found, b: Found): Found { if a == Skip then b else a }

  lemma SayOne(line: string, other: string)
    ensures Say([line], other) == ReadLine(line, other)
  {
    var none: seq<string> := [];
    assert [line][1..] == none;
  }

  lemma {:induction false} SayConcat(a: seq<string>, b: seq<string>, other: string)
    ensures Say(a + b, other) == Or(Say(a, other), Say(b, other))
  {
    if a == [] {
      assert a + b == b;
    } else {
      assert (a + b)[1..] == a[1..] + b;
      SayConcat(a[1..], b, other);
    }
  }

  lemma {:induction false} ReadIsSay(lines: seq<string>, other: string, i: nat)
    requires i <= |lines|
    ensures ReadFrom(lines, other, i) == Code(Say(lines[i..], other))
    decreases |lines| - i
  {
    if i < |lines| {
      assert lines[i..][1..] == lines[i + 1..];
      ReadIsSay(lines, other, i + 1);
    }
  }

  // ---------- A rewritten line ----------

  /** The lines a rewrite prints anew: those with the key somewhere that are no comments. */
  predicate Touched(line: string, key: string)
    requires line != ""
  {
    line[0] != '#' && line[0] != '\n' && Contains(line, key)
  }

  /** What stands before the first equals sign. */
  function Heading(line: string): string { line[..Equals(line)] }

  /** Printed anew, the name is read by `other`. */
  predicate Voices(name: string, other: string) { other <= name && '\n' !in name }

  /** The number printed into the line: where none can be read behind the equals sign, the one left
      from the lines before. */
  function Written(line: string, key: string, value: i32, left: i32): i32 {
    if Heading(line) == key then value
    else if Equals(line) < |line| then NumberIn(line[Equals(line) + 1..], left)
    else left
  }

  /** What `other` finds in the new file in place of a line. */
  ghost function Now(line: string, left: i32, key: string, value: i32, other: string): Found
    requires line != ""
  {
    if !Touched(line, key) then ReadLine(line, other)
    else if Voices(Heading(line), other) then Number(Written(line, key, value, left))
    else Skip
  }

  /** What is printed for a name and a number. */
  function Printed(name: string, v: i32): string { name + ("=" + (Print(v) + "\n")) }

  /** A name that was left behind: without its equals sign, a whole line can be one. */
  predicate IsName(name: string) {
    '=' !in name && ('\n' in name ==> IsLine(name))
  }

  lemma HeadingIsName(line: string)
    requires OneLine(line)
    ensures IsName(Heading(line))
  {
    var h := Heading(line);
    if '\n' in h {
      var i :| 0 <= i < |h| && h[i] == '\n';
      assert h[i] == line[i];
      assert h == line;
    }
  }

  lemma ValueLine(v: i32)
    ensures IsLine("=" + (Print(v) + "\n"))
  {
    PrintIsText(v);
    C.LineConcat(Print(v), "\n");
    C.LineConcat("=", Print(v) + "\n");
  }

  lemma PrintedIsOneLine(name: string, v: i32)
    requires '\n' !in name
    ensures IsLine(Printed(name, v)) && OneLine(Printed(name, v))
  {
    ValueLine(v);
    C.LineConcat(name, "=" + (Print(v) + "\n"));
  }

  lemma PrintedSplits(name: string, v: i32)
    requires '=' !in name
    ensures var line := Printed(name, v);
            Equals(line) == |name| < |line| && line[..|name|] == name && line[|name| + 1..] == Print(v) + "\n"
  {
    var line, tail := Printed(name, v), "=" + (Print(v) + "\n");
    assert forall i | 0 <= i < |name| :: line[i] == name[i] != '=';
    assert line[|name|] == tail[0] == '=' && line[|name| + 1..] == tail[1..] == Print(v) + "\n";
  }

  lemma PrefixStaysInFront(line: string, other: string, e: nat)
    requires other <= line && e < |line| && line[e] == '=' && forall i | 0 <= i < |other| :: other[i] != '='
    ensures other <= line[..e]
  {
    assert forall i | 0 <= i < |other| :: line[i] == other[i] != '=';
    assert |other| <= e && line[..e][..|other|] == line[..|other|] == other;
  }

  /** A key has no equals sign, so it can only be found in front of the first one. */
  lemma KeyInHeading(line: string, other: string)
    requires ProperKey(other) && Equals(line) < |line|
    ensures other <= line <==> other <= Heading(line)
  {
    if other <= line {
      PrefixStaysInFront(line, other, Equals(line));
    }
  }

  lemma PrintIsRead(v: i32)
    ensures Trim(Print(v) + "\n") == Print(v)
    ensures IsNumeral(Print(v)) && Strtol(Print(v)) == Parsed(v, |Print(v)|, true)
  {
    PrintIsText(v);
    C.TrimLine(Print(v));
    DigitsValue(Abs(v));
    C.NumeralValue(0, v < 0, Digits(Abs(v)));
    PrintReadsBack(0, v, "");
    assert Spaces(0) + Print(v) == Print(v) && Print(v) + "" == Print(v);
  }

  lemma PrintedIsRead(name: string, v: i32, other: string)
    requires '=' !in name && ProperKey(other)
    ensures ReadLine(Printed(name, v), other) == if other <= name then Number(v) else Skip
  {
    var line := Printed(name, v);
    PrintedSplits(name, v);
    KeyInHeading(line, other);
    if other <= name {
      PrintIsRead(v);
      C.ReadLineIs(line, other, Print(v), v);
    } else {
      assert !(other <= line);
    }
  }

  /** A name with a newline in it is printed as two lines, and nothing is read from either. */
  lemma PrintedSays(name: string, v: i32, other: string)
    requires IsName(name) && ProperKey(other)
    ensures Say(Lines(Printed(name, v)), other)
         == if Voices(name, other) then Number(v) else Skip
  {
    PrintedIsRead(name, v, other);
    if '\n' !in name {
      PrintedIsOneLine(name, v);
      LinesOfOne(Printed(name, v));
      SayOne(Printed(name, v), other);
    } else {
      var tail := "=" + (Print(v) + "\n");
      ValueLine(v);
      LinesOfOne(name);
      LinesOfOne(tail);
      LinesConcat(name, tail);
      SayConcat([name], [tail], other);
      assert Equals(name) == |name| && ReadLine(name, other) == Skip;
      assert tail[0] == '=' != other[0] && ReadLine(tail, other) == Skip;
      SayOne(name, other);
      SayOne(tail, other);
    }
  }

  // ---------- A rewritten file ----------

  /** What a copied line adds to the text. */
  function Piece(c: Copied, line: string, key: string, value: i32): string
    requires line != ""
  {
    if !Touched(line, key) then line
    else var d := CopyLine(c, line, key, value); Printed(d.key, d.value)
  }

  lemma CopyAddsPiece(c: Copied, line: string, key: string, value: i32)
    requires line != ""
    ensures CopyLine(c, line, key, value).text == c.text + Piece(c, line, key, value)
  {
    if Touched(line, key) {
      var d := CopyLine(c, line, key, value);
      assert c.text + d.key + "=" + Print(d.value) + "\n" == c.text + (d.key + ("=" + (Print(d.value) + "\n")));
    }
  }

  lemma PieceEnds(c: Copied, line: string, key: string, value: i32)
    requires OneLine(line) && Ended(line)
    ensures Ended(Piece(c, line, key, value))
  {
  }

  /** A stale name is not read anew unless it was read before. */
  lemma PieceSays(c: Copied, line: string, key: string, value: i32, other: string)
    requires OneLine(line) && IsName(c.key) && ProperKey(other)
    requires !Voices(c.key, other)
    ensures Say(Lines(Piece(c, line, key, value)), other) == Now(line, c.value, key, value, other)
  {
    if !Touched(line, key) {
      LinesOfOne(line);
      SayOne(line, other);
    } else {
      var d := CopyLine(c, line, key, value);
      HeadingIsName(line);
      PrintedSays(d.key, d.value, other);
      if Equals(line) > 0 {
        assert d.key == Heading(line) && d.value == Written(line, key, value, c.value);
      }
    }
  }

  /** What `other` finds in place of each of the first `n` lines. */
  ghost function Nows(lines: seq<string>, key: string, value: i32, other: string, n: nat): (r: seq<Found>)
    requires n <= |lines| && forall i | 0 <= i < |lines| :: lines[i] != ""
    ensures |r| == n
  {
    if n == 0 then []
    else Nows(lines, key, value, other, n - 1)
         + [Now(lines[n - 1], CopyFirst(lines, key, value, n - 1).value, key, value, other)]
  }

  lemma {:induction false} NowsAt(lines: seq<string>, key: string, value: i32, other: string, n: nat, i: nat)
    requires i < n <= |lines| && forall i | 0 <= i < |lines| :: lines[i] != ""
    ensures Nows(lines, key, value, other, n)[i]
         == Now(lines[i], CopyFirst(lines, key, value, i).value, key, value, other)
  {
    if i < n - 1 {
      NowsAt(lines, key, value, other, n - 1, i);
    }
  }

  /** The first of them that is not skipped. */
  function First(founds: seq<Found>): Found {
    if founds == [] then Skip else Or(First(founds[..|founds| - 1]), founds[|founds| - 1])
  }

  lemma {:induction false} FirstIs(founds: seq<Found>, k: nat)
    requires k <= |founds| && (forall i | 0 <= i < k :: founds[i] == Skip) && (k < |founds| ==> founds[k] != Skip)
    ensures First(founds) == if k == |founds| then Skip else founds[k]
  {
    if founds != [] {
      FirstIs(founds[..|founds| - 1], if k < |founds| then k else k - 1);
    }
  }

  lemma EndedConcat(a: string, b: string)
    requires Ended(a) && Ended(b)
    ensures Ended(a + b)
  {
    if b == "" {
      assert a + b == a;
    } else {
      assert (a + b)[|a + b| - 1] == b[|b| - 1];
    }
  }

  /** The name left behind is the old one, or that of a line read in the new file. */
  lemma NameLeft(c: Copied, line: string, key: string, value: i32)
    requires OneLine(line) && IsName(c.key)
    ensures var d := CopyLine(c, line, key, value);
            && IsName(d.key)
            && (d.key == c.key || (Touched(line, key) && d.key == Heading(line)))
  {
    HeadingIsName(line);
  }

  lemma TextSays(c: Copied, line: string, key: string, value: i32, other: string)
    requires OneLine(line) && IsName(c.key) && Ended(c.text) && ProperKey(other)
    requires Say(Lines(c.text), other) == Skip ==> !Voices(c.key, other)
    ensures Say(Lines(CopyLine(c, line, key, value).text), other)
         == Or(Say(Lines(c.text), other), Now(line, c.value, key, value, other))
  {
    var piece := Piece(c, line, key, value);
    CopyAddsPiece(c, line, key, value);
    LinesConcat(c.text, piece);
    SayConcat(Lines(c.text), Lines(piece), other);
    if Say(Lines(c.text), other) == Skip {
      PieceSays(c, line, key, value, other);
    }
  }

  lemma CopiedLineSays(c: Copied, line: string, key: string, value: i32, other: string)
    requires OneLine(line) && IsName(c.key) && Ended(c.text) && ProperKey(other)
    requires Say(Lines(c.text), other) == Skip ==> !Voices(c.key, other)
    ensures var d := CopyLine(c, line, key, value);
            var said := Or(Say(Lines(c.text), other), Now(line, c.value, key, value, other));
            && IsName(d.key) && (Ended(line) ==> Ended(d.text))
            && Say(Lines(d.text), other) == said
            && (said == Skip ==> !Voices(d.key, other))
  {
    TextSays(c, line, key, value, other);
    NameLeft(c, line, key, value);
    if Ended(line) {
      CopyAddsPiece(c, line, key, value);
      PieceEnds(c, line, key, value);
      EndedConcat(c.text, Piece(c, line, key, value));
    }
  }

  lemma {:induction false} CopiedSays(lines: seq<string>, key: string, value: i32, other: string, n: nat)
    requires IsFile(lines) && ProperKey(other) && n <= |lines|
    ensures var c, said := CopyFirst(lines, key, value, n), First(Nows(lines, key, value, other, n));
            && IsName(c.key) && (n < |lines| ==> Ended(c.text))
            && Say(Lines(c.text), other) == said
            && (said == Skip ==> !Voices(c.key, other))
  {
    if n == 0 {
      assert CopyFirst(lines, key, value, n) == Copied("", "", 0);
    } else {
      CopiedSays(lines, key, value, other, n - 1);
      CopiedLineSays(CopyFirst(lines, key, value, n - 1), lines[n - 1], key, value, other);
      var founds := Nows(lines, key, value, other, n);
      assert founds[..n - 1] == Nows(lines, key, value, other, n - 1);
    }
  }

  /** The first line of the old file that `other` reads in the new one, or the number of lines. */
  ghost function FirstHeard(lines: seq<string>, key: string, other: string, i: nat): (k: nat)
    requires i <= |lines| && forall i | 0 <= i < |lines| :: lines[i] != ""
    ensures i <= k <= |lines| && forall j | i <= j < k :: !Heard(lines[j], key, other)
    ensures k < |lines| ==> Heard(lines[k], key, other)
    decreases |lines| - i
  {
    if i == |lines| || Heard(lines[i], key, other) then i else FirstHeard(lines, key, other, i + 1)
  }

  ghost predicate Heard(line: string, key: string, other: string)
    requires line != ""
  {
    if Touched(line, key) then Voices(Heading(line), other) else ReadLine(line, other) != Skip
  }

  lemma HeardIsNow(line: string, left: i32, key: string, value: i32, other: string)
    requires line != ""
    ensures Now(line, left, key, value, other) != Skip <==> Heard(line, key, other)
  {
  }

  lemma FirstHeardDecides(lines: seq<string>, key: string, value: i32, other: string, k: nat)
    requires (forall i | 0 <= i < |lines| :: lines[i] != "") && k <= |lines|
    requires forall i | 0 <= i < k :: !Heard(lines[i], key, other)
    requires k < |lines| ==> Heard(lines[k], key, other)
    ensures First(Nows(lines, key, value, other, |lines|))
         == if k == |lines| then Skip
            else Now(lines[k], CopyFirst(lines, key, value, k).value, key, value, other)
  {
    var founds := Nows(lines, key, value, other, |lines|);
    forall i | 0 <= i < |lines| ensures founds[i] != Skip <==> Heard(lines[i], key, other) {
      NowsAt(lines, key, value, other, |lines|, i);
      HeardIsNow(lines[i], CopyFirst(lines, key, value, i).value, key, value, other);
    }
    FirstIs(founds, k);
    if k < |lines| {
      NowsAt(lines, key, value, other, |lines|, k);
    }
  }

  lemma SayingIsVoiced(line: string, other: string)
    requires OneLine(line) && ProperKey(other) && ReadLine(line, other) != Skip
    ensures Voices(Heading(line), other)
  {
    var e := Equals(line);
    KeyInHeading(line, other);
    assert forall i | 0 <= i < e :: Heading(line)[i] == line[i];
  }

  /** Until a line is heard, the old file says nothing either. */
  lemma {:induction false} HeardBeforeSaid(lines: seq<string>, key: string, other: string, i: nat)
    requires IsFile(lines) && ProperKey(other) && i <= |lines|
    ensures var k := FirstHeard(lines, key, other, i);
            ReadFrom(lines, other, i) == ReadFrom(lines, other, k)
    decreases |lines| - i
  {
    if i < |lines| && !Heard(lines[i], key, other) {
      if ReadLine(lines[i], other) != Skip {
        SayingIsVoiced(lines[i], other);
      }
      HeardBeforeSaid(lines, key, other, i + 1);
    }
  }

  /** What any key is read as after any rewrite of any file: the first line that is heard decides,
      with the number written into it or, when the rewrite left it alone, as before. */
  lemma RewriteMeaning(lines: seq<string>, key: string, value: i32, other: string)
    requires IsFile(lines) && ProperKey(other)
    ensures var k := FirstHeard(lines, key, other, 0);
            Read(Some(Lines(Copy(lines, key, value))), other)
            == if k == |lines| then UNSET
               else if !Touched(lines[k], key) then Read(Some(lines), other)
               else Written(lines[k], key, value, CopyFirst(lines, key, value, k).value)
  {
    var k, after := FirstHeard(lines, key, other, 0), Lines(Copy(lines, key, value));
    CopiedSays(lines, key, value, other, |lines|);
    FirstHeardDecides(lines, key, value, other, k);
    ReadIsSay(after, other, 0);
    assert after[0..] == after;
    if k < |lines| && !Touched(lines[k], key) {
      HeardBeforeSaid(lines, key, other, 0);
    }
  }

  // ---------- When other keys keep their values ----------

  /** Behind its first equals sign the line has a numeral that fits a `long`. */
  ghost predicate HasNumber(line: string) {
    && Equals(line) < |line|
    && var p := Trim(line[Equals(line) + 1..]); IsNumeral(p) && Strtol(p).fits
  }

  /** The line that decides is printed anew, and not for its own key. */
  ghost predicate Reprinted(lines: seq<string>, key: string, other: string)
    requires forall i | 0 <= i < |lines| :: lines[i] != ""
  {
    var k := FirstHeard(lines, key, other, 0);
    k < |lines| && Touched(lines[k], key) && Heading(lines[k]) != key
  }

  /** The line that decides is the setting of the key. */
  ghost predicate Own(lines: seq<string>, key: string, other: string)
    requires forall i | 0 <= i < |lines| :: lines[i] != ""
  {
    var k := FirstHeard(lines, key, other, 0);
    k < |lines| && Touched(lines[k], key) && Heading(lines[k]) == key
  }

  lemma {:induction false} StartsLonger(p: string, s: string, n: nat, neg: bool, ds: string)
    requires Starts(p, n, neg, ds) && |p| == n + (if neg then 1 else 0) + |ds|
    requires p <= s && (|p| < |s| ==> !IsDigit(s[|p|]))
    ensures Starts(s, n, neg, ds)
  {
    var b := n + if neg then 1 else 0;
    assert p == s[..|p|];
    assert s[b..b + |ds|] == p[b..b + |ds|];
    assert forall i | 0 <= i < |p| :: s[i] == p[i];
  }

  lemma {:induction false} NumeralStarts(p: string) returns (n: nat, neg: bool, ds: string)
    requires IsNumeral(p)
    ensures Starts(p, n, neg, ds) && |p| == n + (if neg then 1 else 0) + |ds|
  {
    n, neg :| Numeral(p, n, neg);
    ds := p[n + if neg then 1 else 0..];
  }

  /** `sscanf` and `strtol` read the same number. */
  lemma ScanReadsNumeral(s: string)
    requires IsNumeral(Trim(s))
    ensures Strtol(s) == Strtol(Trim(s)) && Strtol(s).used > 0
  {
    TrimMeaning(s);
    var n, neg, ds := NumeralStarts(Trim(s));
    StartsLonger(Trim(s), s, n, neg, ds);
    StrtolReads(Trim(s), n, neg, ds);
    StrtolReads(s, n, neg, ds);
  }

  lemma {:induction false} ClippedIsNoCode(s: string)
    requires !Strtol(s).fits
    ensures ToI32(Strtol(s).value) != CFGOPEN_OR_MEMSET_ERROR
  {
    var v := Strtol(s).value;
    assert v == -TWO63 || v == TWO63 - 1;
    assert ToI32(-TWO63) == 0 && ToI32(TWO63 - 1) == -1;
  }

  lemma ReadsRest(line: string, other: string)
    requires ProperKey(other) && other <= Heading(line) && Equals(line) < |line|
    ensures ReadLine(line, other) == FoundIn(Trim(line[Equals(line) + 1..]))
  {
    KeyInHeading(line, other);
  }

  lemma VoicedIsNumber(line: string, key: string, value: i32, left: i32, other: string)
    requires OneLine(line) && ProperKey(other) && Voices(Heading(line), other) && Heading(line) != key
    ensures ReadLine(line, other).Number? <==> HasNumber(line)
    ensures HasNumber(line) ==> ReadLine(line, other).value == Written(line, key, value, left)
    ensures ReadLine(line, other).TooLarge? ==> Written(line, key, value, left) != CFGOPEN_OR_MEMSET_ERROR
  {
    if Equals(line) < |line| {
      ReadsRest(line, other);
      var rest := line[Equals(line) + 1..];
      if IsNumeral(Trim(rest)) {
        ScanReadsNumeral(rest);
        if !Strtol(rest).fits {
          ClippedIsNoCode(rest);
        }
      }
    }
  }

  /** A key keeps its value through the rewrite of another exactly when the line that decides has a
      proper number or was left alone; or, by luck, if the number printed into a line without one
      is what would have been read behind it. */
  lemma RewriteKeepsIff(lines: seq<string>, key: string, value: i32, other: string)
    requires IsFile(lines) && ProperKey(other)
    ensures var k := FirstHeard(lines, key, other, 0);
            Read(Some(Lines(Copy(lines, key, value))), other)
            == (if Own(lines, key, other) then value else Read(Some(lines), other))
            <==> (Reprinted(lines, key, other) ==>
                    || HasNumber(lines[k])
                    || (ReadLine(lines[k], other) == Skip
                        && Written(lines[k], key, value, CopyFirst(lines, key, value, k).value)
                           == ReadFrom(lines, other, k + 1)))
  {
    RewriteMeaning(lines, key, value, other);
    HeardBeforeSaid(lines, key, other, 0);
    var k := FirstHeard(lines, key, other, 0);
    if Reprinted(lines, key, other) {
      VoicedIsNumber(lines[k], key, value, CopyFirst(lines, key, value, k).value, other);
    }
  }

  /** In a file in which all lines with the key that are no comments have a number, nothing but the
      setting of the key changes. */
  lemma OthersAreKept(text: string, key: string, value: i32, other: string)
    requires ProperKey(other)
    requires forall line | line in Lines(text) && line != "" && Touched(line, key) :: HasNumber(line)
    ensures IsFile(Lines(text))
    ensures Read(Some(Lines(Copy(Lines(text), key, value))), other)
         == if Own(Lines(text), key, other) then value else Read(Some(Lines(text)), other)
  {
    LinesAreFile(text);
    RewriteKeepsIff(Lines(text), key, value, other);
  }

  // ---------- Where they do not ----------

  /** A key is read as `before`, and after the rewrite as `after`. */
  ghost predicate Turns(lines: seq<string>, key: string, value: i32, other: string, before: int, after: int) {
    && IsFile(lines)
    && Read(Some(lines), other) == before
    && Read(Some(Lines(Copy(lines, key, value))), other) == after
  }

  /** A line that assigns any text to a name. */
  function Assigns(name: string, text: string): string { name + ("=" + (text + "\n")) }

  lemma AssignsSplits(name: string, text: string)
    requires ProperKey(name) && forall i | 0 <= i < |text| :: text[i] != '\n'
    ensures var line := Assigns(name, text);
            OneLine(line) && Ended(line) && Heading(line) == name && Equals(line) < |line| && line[0] == name[0]
            && line[Equals(line) + 1..] == text + "\n"
  {
    var line, tail := Assigns(name, text), "=" + (text + "\n");
    C.LineConcat(text, "\n");
    C.LineConcat("=", text + "\n");
    C.LineConcat(name, tail);
    assert forall i | 0 <= i < |name| :: line[i] == name[i] != '=';
    assert line[|name|] == tail[0] == '=' && line[|name| + 1..] == tail[1..] == text + "\n";
  }

  lemma StartIsContained(key: string, more: string, text: string)
    ensures Contains(Assigns(key + more, text), key)
  {
    var line := Assigns(key + more, text);
    assert line[0..|key|] == key;
    assert OccursAt(line, key, 0);
  }

  lemma NumeralEndsInDigit(p: string)
    requires IsNumeral(p)
    ensures p != "" && IsDigit(p[|p| - 1])
  {
    var n: nat, neg :| Numeral(p, n, neg);
    assert p[|p| - 1] == p[n + if neg then 1 else 0..][|p| - 1 - (n + if neg then 1 else 0)];
  }

  lemma WrittenIs(line: string, key: string, value: i32, rest: string)
    requires Heading(line) != key && Equals(line) < |line| && line[Equals(line) + 1..] == rest
    ensures Written(line, key, value, 0) == NumberIn(rest, 0)
  {
  }

  lemma ReadsRestAs(line: string, other: string, rest: string)
    requires ProperKey(other) && other <= Heading(line) && Equals(line) < |line|
    requires line[Equals(line) + 1..] == rest
    ensures ReadLine(line, other) == FoundIn(Trim(rest))
  {
    ReadsRest(line, other);
  }

  lemma {:induction false} OnlyLine(line: string, key: string, value: i32, name: string)
    requires OneLine(line) && Touched(line, key) && ProperKey(name) && Voices(Heading(line), name)
    ensures Turns([line], key, value, name, Code(ReadLine(line, name)), Written(line, key, value, 0))
  {
    RewriteMeaning([line], key, value, name);
    ReadIsSay([line], name, 0);
    SayOne(line, name);
    assert [line][0..] == [line];
    assert Heard(line, key, name);
    assert CopyFirst([line], key, value, 0).value == 0;
  }

  lemma OnlyLineReads(line: string, key: string, value: i32, name: string, rest: string, before: Found, after: int)
    requires OneLine(line) && Touched(line, key) && ProperKey(name) && Heading(line) == name != key
    requires Equals(line) < |line| && line[Equals(line) + 1..] == rest
    requires FoundIn(Trim(rest)) == before && NumberIn(rest, 0) == after
    ensures Turns([line], key, value, name, Code(before), after)
  {
    OnlyLine(line, key, value, name);
    ReadsRestAs(line, name, rest);
    WrittenIs(line, key, value, rest);
  }

  /** A file with one line, which is for a longer key. */
  lemma LongerKeyReads(key: string, more: string, text: string, value: i32, before: Found, after: int)
    requires ProperKey(key) && ProperKey(key + more) && more != "" && forall i | 0 <= i < |text| :: text[i] != '\n'
    requires FoundIn(Trim(text + "\n")) == before && NumberIn(text + "\n", 0) == after
    ensures Turns([Assigns(key + more, text)], key, value, key + more, Code(before), after)
  {
    var name, line := key + more, Assigns(key + more, text);
    StartIsContained(key, more, text);
    AssignsSplits(name, text);
    assert Touched(line, key);
    OnlyLineReads(line, key, value, name, text + "\n", before, after);
  }

  lemma {:induction false} TailIsRead(v: i32, s: string)
    requires s == Print(v) + "x\n"
    ensures NumberIn(s, 0) == v
  {
    PrintIsText(v);
    PrintReadsBack(0, v, "x\n");
    assert Spaces(0) + Print(v) == Print(v);
    IntUnchanged(v);
  }

  lemma {:induction false} TailIsNoNumeral(text: string)
    ensures Trim(text + "x" + "\n") == text + "x" && !IsNumeral(text + "x")
  {
    var p := text + "x";
    assert (p + "\n")[..|p|] == p;
    if IsNumeral(p) {
      NumeralEndsInDigit(p);
    }
  }

  /** In a line that mentions the key and has no number the rewrite puts a zero, so that a key
      nobody wrote a number for reads as one. */
  lemma {:induction false} JunkBecomesZero(key: string, more: string, value: i32)
    requires ProperKey(key) && ProperKey(key + more) && more != ""
    ensures Turns([Assigns(key + more, "x")], key, value, key + more, UNSET, 0)
  {
    TailIsNoNumeral("");
    assert "" + "x" == "x";
    LongerKeyReads(key, more, "x", value, Skip, 0);
  }

  /** A number with something behind it is skipped in the old file and counts in the new one. */
  lemma {:induction false} TailIsCutOff(key: string, more: string, v: i32, value: i32)
    requires ProperKey(key) && ProperKey(key + more) && more != ""
    ensures Turns([Assigns(key + more, Print(v) + "x")], key, value, key + more, UNSET, v)
  {
    var text := Print(v) + "x";
    PrintIsText(v);
    TailIsNoNumeral(Print(v));
    assert text + "\n" == Print(v) + "x\n";
    TailIsRead(v, text + "\n");
    LongerKeyReads(key, more, text, value, Skip, v);
  }

  lemma {:induction false} DigitsReadTwice(m: nat)
    ensures var text := Digits(m);
            && Trim(text + "\n") == text && IsNumeral(text)
            && Strtol(text) == Strtol(text + "\n") == Clipped(m, |text|)
  {
    var text := Digits(m);
    DigitsValue(m);
    C.NumeralValue(0, false, text);
    assert Spaces(0) + (Sign(false) + text) == text;
    C.TrimLine(text);
    ScanReadsNumeral(text + "\n");
  }

  lemma LargestIsCutToUnset()
    ensures ToI32(TWO63 - 1) == UNSET
  {
  }

  /** A number that fits no `long` is an error in the old file and -1 in the new one. */
  lemma {:induction false} TooLargeBecomesUnset(key: string, more: string, m: nat, value: i32)
    requires ProperKey(key) && ProperKey(key + more) && more != "" && m >= TWO63
    ensures Turns([Assigns(key + more, Digits(m))], key, value, key + more, CFGOPEN_OR_MEMSET_ERROR, UNSET)
  {
    DigitsValue(m);
    DigitsReadTwice(m);
    LargestIsCutToUnset();
    LongerKeyReads(key, more, Digits(m), value, TooLarge, UNSET);
  }
}
