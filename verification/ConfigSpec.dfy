/** What the configuration code reads from and writes to a file, on values; a file is the
    sequence of its lines, each with its newline. */
module ConfigSpec {
  import opened Machine
  import opened Text
  import opened ListSpec

  const UNSET := -1
  const CFGOPEN_OR_MEMSET_ERROR := -2

  /** Trailing blanks and line ends go, but never the first character. */
  function Trim(s: string): string {
    if |s| > 1 && s[|s| - 1] in " \n\r" then Trim(s[..|s| - 1]) else s
  }

  /** Exactly the blanks and line ends at the end are cut off, down to the first character. */
  lemma {:induction false} TrimMeaning(s: string)
    ensures Trim(s) <= s && (s != "" ==> Trim(s) != "")
    ensures forall i | |Trim(s)| <= i < |s| :: s[i] == ' ' || s[i] == '\n' || s[i] == '\r'
    ensures |Trim(s)| > 1 ==> var c := Trim(s)[|Trim(s)| - 1]; c != ' ' && c != '\n' && c != '\r'
  {
    if |s| > 1 && s[|s| - 1] in " \n\r" {
      TrimMeaning(s[..|s| - 1]);
    }
  }

  /** Spaces, maybe a minus sign, and digits up to the end. */
  ghost predicate Numeral(s: string, n: nat, neg: bool) {
    && n + (if neg then 1 else 0) < |s|
    && (forall i | 0 <= i < n :: s[i] == ' ')
    && (neg ==> s[n] == '-')
    && AllDigits(s[n + if neg then 1 else 0..])
  }

  ghost predicate IsNumeral(s: string) { exists n: nat, neg :: Numeral(s, n, neg) }

  /** The place of the first equals sign, or the length. */
  function Equals(s: string): (k: nat)
    ensures k <= |s| && (forall i | 0 <= i < k :: s[i] != '=') && (k < |s| ==> s[k] == '=')
  {
    if s == "" || s[0] == '=' then 0 else 1 + Equals(s[1..])
  }

  // ---------- Reading ----------

  datatype Found = Skip | Number(value: i32) | TooLarge

  /** What the trimmed text behind the equals sign says. */
  ghost function FoundIn(p: string): Found {
    if !IsNumeral(p) then Skip
    else if Strtol(p).fits then Number(ToI32(Strtol(p).value)) else TooLarge
  }

  /** What a line says about a key. A line of a longer key counts too. */
  ghost function ReadLine(line: string, key: string): Found {
    if !(key <= line) || Equals(line) == |line| then Skip
    else FoundIn(Trim(line[Equals(line) + 1..]))
  }

  ghost function ReadFrom(lines: seq<string>, key: string, i: nat): int
    requires i <= |lines|
    decreases |lines| - i
  {
    if i == |lines| then UNSET
    else match ReadLine(lines[i], key)
         case Skip => ReadFrom(lines, key, i + 1)
         case Number(v) => v
         case TooLarge => CFGOPEN_OR_MEMSET_ERROR
  }

  /** `GetIntegerValueFromCfg`; no file is an error. */
  ghost function Read(file: Option<seq<string>>, key: string): int {
    match file
    case None => CFGOPEN_OR_MEMSET_ERROR
    case Some(lines) => ReadFrom(lines, key, 0)
  }

  /** The first line that says something about a key, or the number of lines. */
  ghost function FirstSaying(lines: seq<string>, key: string, i: nat): (k: nat)
    requires i <= |lines|
    ensures i <= k <= |lines| && forall j | i <= j < k :: ReadLine(lines[j], key) == Skip
    ensures k < |lines| ==> ReadLine(lines[k], key) != Skip
    decreases |lines| - i
  {
    if i == |lines| || ReadLine(lines[i], key) != Skip then i else FirstSaying(lines, key, i + 1)
  }

  /** That line has a number that fits no `long`, or one that is the error code itself. */
  ghost predicate Fatal(lines: seq<string>, key: string) {
    var k := FirstSaying(lines, key, 0);
    k < |lines| && (ReadLine(lines[k], key).TooLarge? || ReadLine(lines[k], key) == Number(CFGOPEN_OR_MEMSET_ERROR))
  }

  /** There is no such line, or it has the code for a missing value. */
  ghost predicate Unsaid(lines: seq<string>, key: string) {
    var k := FirstSaying(lines, key, 0);
    k == |lines| || ReadLine(lines[k], key) == Number(UNSET)
  }

  /** Of any file, whatever its lines, a key is read from the first line that says something about
      it. */
  lemma {:induction false} ReadIsFirstSaying(lines: seq<string>, key: string, i: nat)
    requires i <= |lines|
    ensures var k := FirstSaying(lines, key, i);
            ReadFrom(lines, key, i) ==
            if k == |lines| then UNSET
            else if ReadLine(lines[k], key).Number? then ReadLine(lines[k], key).value
            else CFGOPEN_OR_MEMSET_ERROR
    decreases |lines| - i
  {
    if i < |lines| && ReadLine(lines[i], key) == Skip {
      ReadIsFirstSaying(lines, key, i + 1);
    }
  }

  /** The codes for an error and for a missing value can be written in the file: reading any file
      fails, or finds nothing, exactly when the line that decides says so or has the code. */
  lemma CodesAreRead(lines: seq<string>, key: string)
    ensures Read(Some(lines), key) == CFGOPEN_OR_MEMSET_ERROR <==> Fatal(lines, key)
    ensures Read(Some(lines), key) == UNSET <==> Unsaid(lines, key)
  {
    ReadIsFirstSaying(lines, key, 0);
  }

  /** A numeral is read to its last character, so `strtol` always ends at the end. */
  lemma NumeralIsConsumed(s: string)
    requires IsNumeral(s)
    ensures Strtol(s).used == |s|
  {
    var n: nat, neg :| Numeral(s, n, neg);
    var ds := s[n + if neg then 1 else 0..];
    assert Starts(s, n, neg, ds);
    StrtolReads(s, n, neg, ds);
  }

  // ---------- Writing ----------

  /** The text written so far, and the key and value the last parsed line left behind. */
  datatype Copied = Copied(text: string, key: string, value: i32)

  /** The number at the start of a text, or the one left from before. */
  function NumberIn(s: string, left: i32): i32 {
    if Strtol(s).used > 0 then ToI32(Strtol(s).value) else left
  }

  /** `sscanf` of a key and a value: what it cannot read keeps its old value. */
  function Scan(line: string, c: Copied): Copied {
    var k := Equals(line);
    if k == 0 then c
    else
      Copied(c.text, line[..k], if k < |line| then NumberIn(line[k + 1..], c.value) else c.value)
  }

  function CopyLine(c: Copied, line: string, key: string, value: i32): Copied
    requires line != ""
  {
    if line[0] == '#' || line[0] == '\n' || !Contains(line, key) then c.(text := c.text + line)
    else
      var d := Scan(line, c);
      var v := if d.key == key then value else d.value;
      Copied(c.text + d.key + "=" + Print(v) + "\n", d.key, v)
  }

  function CopyFirst(lines: seq<string>, key: string, value: i32, n: nat): Copied
    requires n <= |lines| && forall i | 0 <= i < |lines| :: lines[i] != ""
  {
    if n == 0 then Copied("", "", 0)
    else CopyLine(CopyFirst(lines, key, value, n - 1), lines[n - 1], key, value)
  }

  /** `CopyToFile`. */
  function Copy(lines: seq<string>, key: string, value: i32): string
    requires forall i | 0 <= i < |lines| :: lines[i] != ""
  {
    CopyFirst(lines, key, value, |lines|).text
  }

  /** The lines of a text, as they are read. */
  function Lines(text: string): seq<string> {
    if text == "" then [] else
      var n := LineEnd(text);
      [text[..n]] + Lines(text[n..])
  }

  function LineEnd(text: string): (n: nat)
    requires text != ""
    ensures 0 < n <= |text| && (forall i | 0 <= i < n - 1 :: text[i] != '\n')
    ensures n < |text| ==> text[n - 1] == '\n'
  {
    if text[0] == '\n' || |text| == 1 then 1 else 1 + LineEnd(text[1..])
  }

  function Join(lines: seq<string>): string {
    if lines == [] then "" else Join(lines[..|lines| - 1]) + lines[|lines| - 1]
  }

  predicate IsLine(s: string) {
    s != "" && s[|s| - 1] == '\n' && forall i | 0 <= i < |s| - 1 :: s[i] != '\n'
  }

  lemma LineEndIs(a: string, b: string)
    requires IsLine(a)
    ensures LineEnd(a + b) == |a|
  {
    assert forall i | 0 <= i < |a| :: (a + b)[i] == a[i];
  }

  lemma {:induction false} LinesPush(lines: seq<string>, text: string)
    requires forall i | 0 <= i < |lines| :: IsLine(lines[i])
    ensures Lines(Join(lines) + text) == lines + Lines(text)
  {
    if lines == [] {
      assert Join(lines) + text == text;
    } else {
      var most, last := lines[..|lines| - 1], lines[|lines| - 1];
      Associative(Join(most), last, text);
      LinesPush(most, last + text);
      LineEndIs(last, text);
      assert (last + text)[..|last|] == last && (last + text)[|last|..] == text;
      Associative(most, [last], Lines(text));
      assert most + [last] == lines;
    }
  }

  /** Writing lines and reading them back. */
  lemma LinesOfJoin(lines: seq<string>)
    requires forall i | 0 <= i < |lines| :: IsLine(lines[i])
    ensures Lines(Join(lines)) == lines
  {
    LinesPush(lines, "");
    assert Join(lines) + "" == Join(lines) && lines + [] == lines;
  }

  // ---------- Files of settings ----------

  /** A comment or an empty line, or a setting `key = value` with any spacing around the equals
      sign. */
  datatype Item = Note(text: string) | Setting(key: string, pad: nat, gap: nat, value: i32)

  predicate ProperKey(key: string) {
    key != "" && key[0] != '#' && forall i | 0 <= i < |key| :: key[i] != '=' && key[i] != '\n' && key[i] != ' '
  }

  predicate Proper(item: Item) {
    match item
    case Note(text) =>
      (text == "" || text[0] == '#') && forall i | 0 <= i < |text| :: text[i] != '\n'
    case Setting(key, _, _, _) => ProperKey(key)
  }

  function Name(item: Item): string
    requires item.Setting?
  {
    item.key + Spaces(item.pad)
  }

  function Assigned(item: Item): string
    requires item.Setting?
  {
    Spaces(item.gap) + Print(item.value)
  }

  function Line(item: Item): string {
    match item
    case Note(text) => text + "\n"
    case Setting(_, _, _, _) => Name(item) + ("=" + (Assigned(item) + "\n"))
  }

  function FileOf(items: seq<Item>): (r: seq<string>)
    ensures |r| == |items| && forall i | 0 <= i < |r| :: r[i] == Line(items[i])
  {
    seq(|items|, i requires 0 <= i < |items| => Line(items[i]))
  }

  predicate ProperFile(items: seq<Item>) { forall i | 0 <= i < |items| :: Proper(items[i]) }

  /** The value of the first setting of a key. */
  function Lookup(items: seq<Item>, key: string): int {
    if items == [] then UNSET
    else if items[0].Setting? && items[0].key == key then items[0].value
    else Lookup(items[1..], key)
  }

  /** The value of the first setting whose key starts with a key. */
  function LookupPrefix(items: seq<Item>, key: string): int {
    if items == [] then UNSET
    else if items[0].Setting? && key <= items[0].key then items[0].value
    else LookupPrefix(items[1..], key)
  }

  /** The first setting whose key starts with a key is the setting of a longer key. */
  predicate Shadowed(items: seq<Item>, key: string) {
    items != []
    && if items[0].Setting? && key <= items[0].key then items[0].key != key else Shadowed(items[1..], key)
  }

  lemma PrintIsText(v: int)
    ensures Print(v) != "" && IsDigit(Print(v)[|Print(v)| - 1])
    ensures forall i | 0 <= i < |Print(v)| :: Print(v)[i] == '-' || IsDigit(Print(v)[i])
  {
    DigitsValue(Abs(v));
  }

  /** A setting splits at its equals sign. */
  lemma SettingSplits(item: Item)
    requires item.Setting? && Proper(item)
    ensures Equals(Line(item)) == |Name(item)| < |Line(item)|
    ensures Line(item)[..|Name(item)|] == Name(item)
    ensures Line(item)[|Name(item)| + 1..] == Assigned(item) + "\n"
  {
    var name, rest := Name(item), "=" + (Assigned(item) + "\n");
    assert forall i | 0 <= i < |name| :: Line(item)[i] == name[i] != '=';
    assert Line(item)[|name|] == rest[0] == '=';
    assert rest[1..] == Assigned(item) + "\n";
    assert Line(item)[|name| + 1..] == rest[1..];
  }
}
