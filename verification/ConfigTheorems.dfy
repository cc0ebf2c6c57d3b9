/** Reading and rewriting configuration files. */
module ConfigTheorems {
  import opened Machine
  import opened Text
  import opened ListSpec
  import opened ConfigSpec

  // ---------- Numerals ----------

  /** Spaces, maybe a minus sign, and digits are accepted and read to the end, and what is read
      is their value unless it fits no `long`. */
  lemma {:induction false} NumeralValue(n: nat, neg: bool, ds: string)
    requires ds != "" && AllDigits(ds)
    ensures var s := Spaces(n) + (Sign(neg) + ds);
            IsNumeral(s) && Strtol(s) == Clipped(Signed(neg, Value(ds)), |s|)
  {
    var s := Spaces(n) + (Sign(neg) + ds);
    StartsConcat(n, neg, ds, "");
    assert s + "" == s;
    StrtolReads(s, n, neg, ds);
    assert s[n + if neg then 1 else 0..] == ds;
    assert Numeral(s, n, neg);
  }

  lemma AssignedIsNumeral(item: Item)
    requires item.Setting?
    ensures IsNumeral(Assigned(item)) && Strtol(Assigned(item)) == Parsed(item.value, |Assigned(item)|, true)
  {
    var ds := Digits(Abs(item.value));
    DigitsValue(Abs(item.value));
    NumeralValue(item.gap, item.value < 0, ds);
    PrintReadsBack(item.gap, item.value, "");
    assert Assigned(item) + "" == Assigned(item);
  }

  lemma TrimLine(s: string)
    requires s != "" && IsDigit(s[|s| - 1])
    ensures Trim(s + "\n") == s
  {
    assert (s + "\n")[..|s|] == s;
  }

  lemma TrimAssigned(item: Item)
    requires item.Setting?
    ensures Trim(Assigned(item) + "\n") == Assigned(item)
  {
    PrintIsText(item.value);
    var s := Assigned(item);
    assert s != "" && s[|s| - 1] == Print(item.value)[|Print(item.value)| - 1];
    TrimLine(s);
  }

  // ---------- Reading ----------

  lemma KeyPrefix(item: Item, key: string)
    requires item.Setting? && ProperKey(key)
    ensures key <= Line(item) <==> key <= item.key
  {
    var k, rest := item.key, "=" + (Assigned(item) + "\n");
    var tail := Spaces(item.pad) + rest;
    Associative(k, Spaces(item.pad), rest);
    assert Line(item) == k + tail && (tail[0] == ' ' || tail[0] == '=');
    assert (k + tail)[|k|] == tail[0];
    assert forall i | 0 <= i < |key| :: key[i] != tail[0];
    assert |key| <= |k| ==> (k + tail)[..|key|] == k[..|key|];
  }

  lemma NumeralIs(p: string, v: i32)
    requires IsNumeral(p) && Strtol(p) == Parsed(v, |p|, true)
    ensures FoundIn(p) == Number(v)
  {
    IntUnchanged(v);
    var r := Strtol(p);
    assert r.fits && ToI32(r.value) == v;
  }

  lemma ReadLineIs(line: string, key: string, p: string, v: i32)
    requires key <= line && Equals(line) < |line| && Trim(line[Equals(line) + 1..]) == p
    requires IsNumeral(p) && Strtol(p) == Parsed(v, |p|, true)
    ensures ReadLine(line, key) == Number(v)
  {
    NumeralIs(p, v);
    assert ReadLine(line, key) == FoundIn(p);
  }

  lemma SettingIsRead(item: Item, key: string)
    requires item.Setting? && Proper(item) && key <= Line(item)
    ensures ReadLine(Line(item), key) == Number(item.value)
  {
    SettingSplits(item);
    TrimAssigned(item);
    AssignedIsNumeral(item);
    ReadLineIs(Line(item), key, Assigned(item), item.value);
  }

  /** The line of a setting is read as its value by every key its own key starts with, and by no
      other. */
  lemma ReadLineOfItem(item: Item, key: string)
    requires Proper(item) && ProperKey(key)
    ensures ReadLine(Line(item), key)
         == if item.Setting? && key <= item.key then Number(item.value) else Skip
  {
    if item.Note? {
      assert Line(item)[0] == (if item.text == "" then '\n' else '#');
      assert !(key <= Line(item));
    } else {
      KeyPrefix(item, key);
      if key <= item.key { SettingIsRead(item, key); }
    }
  }

  /** Reading a key of any file of settings takes the first setting whose key starts with it. */
  lemma {:induction false} ReadIsLookupPrefix(items: seq<Item>, key: string, i: nat)
    requires ProperFile(items) && ProperKey(key) && i <= |items|
    ensures ReadFrom(FileOf(items), key, i) == LookupPrefix(items[i..], key)
    decreases |items| - i
  {
    if i < |items| {
      ReadLineOfItem(items[i], key);
      ReadIsLookupPrefix(items, key, i + 1);
      assert items[i..][1..] == items[i + 1..];
    }
  }

  lemma {:induction false} ShadowDecides(items: seq<Item>, key: string)
    ensures !Shadowed(items, key) ==> LookupPrefix(items, key) == Lookup(items, key)
  {
    if items != [] {
      ShadowDecides(items[1..], key);
    }
  }

  /** The same settings with other values. */
  function WithValues(items: seq<Item>, values: seq<i32>): (r: seq<Item>)
    requires |values| == |items|
    ensures |r| == |items|
    ensures forall i | 0 <= i < |r| ::
              r[i] == if items[i].Setting? then items[i].(value := values[i]) else items[i]
  {
    seq(|items|, i requires 0 <= i < |items| =>
      if items[i].Setting? then items[i].(value := values[i]) else items[i])
  }

  ghost predicate ReadsItsOwn(items: seq<Item>, key: string, values: seq<i32>)
    requires |values| == |items|
  {
    ReadFrom(FileOf(WithValues(items, values)), key, 0) == Lookup(WithValues(items, values), key)
  }

  lemma {:induction false} ShadowIgnoresValues(items: seq<Item>, key: string, values: seq<i32>)
    requires |values| == |items|
    ensures Shadowed(WithValues(items, values), key) == Shadowed(items, key)
  {
    if items != [] {
      ShadowIgnoresValues(items[1..], key, values[1..]);
      assert WithValues(items, values)[1..] == WithValues(items[1..], values[1..]);
    }
  }

  /** Zero for the settings of a key and one for all others. */
  function Telling(items: seq<Item>, key: string): (r: seq<i32>)
    ensures |r| == |items|
    ensures forall i | 0 <= i < |r| :: r[i] == if items[i].Setting? && items[i].key == key then 0 else 1
  {
    seq(|items|, i requires 0 <= i < |items| => if items[i].Setting? && items[i].key == key then 0 else 1)
  }

  lemma {:induction false} TellingTells(items: seq<Item>, key: string)
    ensures var told := WithValues(items, Telling(items, key));
            Lookup(told, key) != 1 && (Shadowed(items, key) ==> LookupPrefix(told, key) == 1)
  {
    if items != [] {
      TellingTells(items[1..], key);
      assert WithValues(items, Telling(items, key))[1..] == WithValues(items[1..], Telling(items[1..], key));
    }
  }

  lemma ReadOfValues(items: seq<Item>, key: string, values: seq<i32>)
    requires ProperFile(items) && ProperKey(key) && |values| == |items|
    ensures ReadFrom(FileOf(WithValues(items, values)), key, 0) == LookupPrefix(WithValues(items, values), key)
  {
    var told := WithValues(items, values);
    ReadIsLookupPrefix(told, key, 0);
    assert told[0..] == told;
  }

  /** A key is read as its own first setting, or the default, whatever the values in the file are,
      exactly when no setting of a longer key comes before. */
  lemma ReadIsLookupIff(items: seq<Item>, key: string)
    requires ProperFile(items) && ProperKey(key)
    ensures (forall values | |values| == |items| :: ReadsItsOwn(items, key, values)) <==> !Shadowed(items, key)
  {
    if Shadowed(items, key) {
      ReadOfValues(items, key, Telling(items, key));
      TellingTells(items, key);
      assert !ReadsItsOwn(items, key, Telling(items, key));
    } else {
      forall values: seq<i32> | |values| == |items| ensures ReadsItsOwn(items, key, values) {
        ReadOfValues(items, key, values);
        ShadowIgnoresValues(items, key, values);
        ShadowDecides(WithValues(items, values), key);
      }
    }
  }

  /** Otherwise the setting of the longer key is taken, even if the key has one of its own. */
  lemma LongerKeyIsTaken(key: string, more: string, v: i32, w: i32)
    requires ProperKey(key) && ProperKey(key + more) && more != ""
    ensures var items := [Setting(key + more, 0, 0, v), Setting(key, 0, 0, w)];
            Lookup(items, key) == w && ReadFrom(FileOf(items), key, 0) == v
  {
    var items := [Setting(key + more, 0, 0, v), Setting(key, 0, 0, w)];
    assert items[0].key[..|key|] == key && |items[0].key| > |key|;
    assert items[1..][0] == items[1];
    ReadIsLookupPrefix(items, key, 0);
    assert items[0..] == items;
  }

  // ---------- Numbers ----------

  /** A line with a number, with any spacing around the equals sign. */
  function NumberLine(key: string, pad: nat, gap: nat, neg: bool, ds: string): string {
    (key + Spaces(pad)) + ("=" + ((Spaces(gap) + (Sign(neg) + ds)) + "\n"))
  }

  lemma {:induction false} KeySplits(key: string, pad: nat, rest: string)
    requires ProperKey(key)
    ensures var line := (key + Spaces(pad)) + ("=" + rest);
            key <= line && Equals(line) == |key| + pad < |line| && line[|key| + pad + 1..] == rest
  {
    var name, tail := key + Spaces(pad), "=" + rest;
    var line := name + tail;
    assert forall i | 0 <= i < |name| :: line[i] == name[i] != '=';
    assert line[|name|] == tail[0] == '=' && tail[1..] == rest;
    assert line[..|key|] == key;
  }

  lemma {:induction false} ValueSplits(key: string, pad: nat, p: string)
    requires ProperKey(key) && p != "" && IsDigit(p[|p| - 1])
    ensures var line := (key + Spaces(pad)) + ("=" + (p + "\n"));
            key <= line && Equals(line) < |line| && Trim(line[Equals(line) + 1..]) == p
  {
    KeySplits(key, pad, p + "\n");
    TrimLine(p);
  }

  lemma {:induction false} DigitsAreRead(line: string, key: string, p: string, m: int)
    requires key <= line && Equals(line) < |line| && Trim(line[Equals(line) + 1..]) == p
    requires IsNumeral(p) && Strtol(p) == Clipped(m, |p|)
    ensures ReadLine(line, key) == if -TWO63 <= m < TWO63 then Number(ToI32(m)) else TooLarge
  {
  }

  lemma {:induction false} NumberLineSplits(key: string, pad: nat, gap: nat, neg: bool, ds: string)
    requires ProperKey(key) && ds != "" && AllDigits(ds)
    ensures var line, p := NumberLine(key, pad, gap, neg, ds), Spaces(gap) + (Sign(neg) + ds);
            && key <= line && Equals(line) < |line| && Trim(line[Equals(line) + 1..]) == p
            && IsNumeral(p) && Strtol(p) == Clipped(Signed(neg, Value(ds)), |p|)
  {
    var p := Spaces(gap) + (Sign(neg) + ds);
    NumeralValue(gap, neg, ds);
    assert p[|p| - 1] == ds[|ds| - 1];
    ValueSplits(key, pad, p);
  }

  /** Every number is cut to 32 bits without a word: `2^32 + 130` is read as 130. It is unchanged
      exactly when it fits, and refused only when it does not fit 64 bits. */
  lemma {:induction false} NumbersAreReadModulo(key: string, pad: nat, gap: nat, neg: bool, ds: string)
    requires ProperKey(key) && ds != "" && AllDigits(ds)
    ensures var m := Signed(neg, Value(ds));
            && ReadLine(NumberLine(key, pad, gap, neg, ds), key)
               == (if -TWO63 <= m < TWO63 then Number(ToI32(m)) else TooLarge)
            && (ToI32(m) == m <==> -TWO31 <= m < TWO31)
  {
    NumberLineSplits(key, pad, gap, neg, ds);
    var p, m := Spaces(gap) + (Sign(neg) + ds), Signed(neg, Value(ds));
    DigitsAreRead(NumberLine(key, pad, gap, neg, ds), key, p, m);
    IntFitsIff(m);
  }

  lemma {:induction false} FatalNumber(key: string, neg: bool, n: nat)
    requires ProperKey(key) && -TWO63 <= Signed(neg, n) < TWO63 && ToI32(Signed(neg, n)) == CFGOPEN_OR_MEMSET_ERROR
    ensures Fatal([NumberLine(key, 1, 1, neg, Digits(n))], key)
  {
    DigitsValue(n);
    NumbersAreReadModulo(key, 1, 1, neg, Digits(n));
  }

  /** The error code written in a file makes it unreadable, and so does a number that is cut to
      it. */
  lemma {:induction false} ErrorCodeInFile(key: string)
    requires ProperKey(key)
    ensures Fatal([NumberLine(key, 1, 1, true, Digits(2))], key)
    ensures Fatal([NumberLine(key, 1, 1, false, Digits(4294967294))], key)
  {
    FatalNumber(key, true, 2);
    FatalNumber(key, false, 4294967294);
  }

  // ---------- Rewriting ----------

  /** What a rewrite makes of an item: only a setting written without a space before the equals
      sign takes the new value. */
  function Rewritten(item: Item, key: string, value: i32): Item {
    if item.Note? || !Contains(Line(item), key) then item
    else Setting(item.key, item.pad, 0, if item.key == key && item.pad == 0 then value else item.value)
  }

  function RewriteAll(items: seq<Item>, key: string, value: i32): (r: seq<Item>)
    ensures |r| == |items| && forall i | 0 <= i < |r| :: r[i] == Rewritten(items[i], key, value)
  {
    seq(|items|, i requires 0 <= i < |items| => Rewritten(items[i], key, value))
  }

  lemma LineConcat(a: string, b: string)
    requires IsLine(b) && forall i | 0 <= i < |a| :: a[i] != '\n'
    ensures IsLine(a + b)
  {
  }

  lemma LineIsLine(item: Item)
    requires Proper(item)
    ensures IsLine(Line(item)) && (item.Setting? ==> Line(item)[0] != '#' && Line(item)[0] != '\n')
  {
    if item.Setting? {
      PrintIsText(item.value);
      LineConcat(Assigned(item), "\n");
      LineConcat("=", Assigned(item) + "\n");
      LineConcat(Name(item), "=" + (Assigned(item) + "\n"));
      assert Line(item)[0] == item.key[0];
    } else {
      LineConcat(item.text, "\n");
    }
  }

  lemma FileHasLines(items: seq<Item>)
    requires ProperFile(items)
    ensures forall i | 0 <= i < |items| :: FileOf(items)[i] != "" && IsLine(FileOf(items)[i])
  {
    forall i | 0 <= i < |items| ensures FileOf(items)[i] != "" && IsLine(FileOf(items)[i]) {
      LineIsLine(items[i]);
    }
  }

  lemma NameIsKey(item: Item, key: string)
    requires item.Setting? && Proper(item) && ProperKey(key)
    ensures Name(item) == key <==> item.key == key && item.pad == 0
  {
    if item.pad > 0 {
      assert Name(item)[|Name(item)| - 1] == ' ';
    } else {
      assert Name(item) == item.key;
    }
  }

  lemma ScanIs(line: string, c: Copied, v: i32, used: nat)
    requires 0 < Equals(line) < |line| && used > 0
    requires Strtol(line[Equals(line) + 1..]) == Parsed(v, used, true)
    ensures Scan(line, c) == Copied(c.text, line[..Equals(line)], v)
  {
    IntUnchanged(v);
    var r := Strtol(line[Equals(line) + 1..]);
    assert r.used > 0 && ToI32(r.value) == v;
  }

  lemma ScanOfSetting(item: Item, c: Copied)
    requires item.Setting? && Proper(item)
    ensures Scan(Line(item), c) == Copied(c.text, Name(item), item.value)
  {
    SettingSplits(item);
    PrintIsText(item.value);
    PrintReadsBack(item.gap, item.value, "\n");
    ScanIs(Line(item), c, item.value, |Assigned(item)|);
  }

  lemma CopyLineIs(c: Copied, line: string, key: string, value: i32, d: Copied)
    requires line != "" && line[0] != '#' && line[0] != '\n' && Contains(line, key) && Scan(line, c) == d
    ensures CopyLine(c, line, key, value).text
         == c.text + d.key + "=" + Print(if d.key == key then value else d.value) + "\n"
  {
    assert d.text == c.text;
  }

  lemma RewrittenLine(text: string, item: Item)
    requires item.Setting? && item.gap == 0
    ensures text + Name(item) + "=" + Print(item.value) + "\n" == text + Line(item)
  {
    assert Spaces(0) + Print(item.value) == Print(item.value);
    assert text + Name(item) + "=" + Print(item.value) + "\n"
        == text + (Name(item) + ("=" + (Print(item.value) + "\n")));
  }

  lemma CopyLineOfItem(c: Copied, item: Item, key: string, value: i32)
    requires Proper(item) && ProperKey(key)
    ensures Line(item) != ""
    ensures CopyLine(c, Line(item), key, value).text == c.text + Line(Rewritten(item, key, value))
  {
    LineIsLine(item);
    if item.Setting? && Contains(Line(item), key) {
      var d := Copied(c.text, Name(item), item.value);
      ScanOfSetting(item, c);
      CopyLineIs(c, Line(item), key, value, d);
      NameIsKey(item, key);
      RewrittenLine(c.text, Rewritten(item, key, value));
    } else if item.Note? {
      assert Line(item)[0] == '#' || Line(item)[0] == '\n';
    }
  }

  lemma {:induction false} CopyFirstOfItems(items: seq<Item>, file: seq<string>, lines: seq<string>,
                                            key: string, value: i32, n: nat)
    requires ProperFile(items) && ProperKey(key) && n <= |items|
    requires file == FileOf(items) && lines == FileOf(RewriteAll(items, key, value))
    requires forall i | 0 <= i < |items| :: file[i] != ""
    ensures CopyFirst(file, key, value, n).text == Join(lines[..n])
  {
    if n > 0 {
      CopyFirstOfItems(items, file, lines, key, value, n - 1);
      CopyLineOfItem(CopyFirst(file, key, value, n - 1), items[n - 1], key, value);
      var part := lines[..n];
      assert part[..n - 1] == lines[..n - 1] && part[n - 1] == lines[n - 1];
      assert Join(part) == Join(part[..n - 1]) + part[n - 1];
    }
  }

  lemma RewriteKeepsProper(items: seq<Item>, key: string, value: i32)
    requires ProperFile(items)
    ensures ProperFile(RewriteAll(items, key, value))
  {
  }

  /** The rewritten file has, line by line, the rewritten items. */
  lemma CopyRewritesItems(items: seq<Item>, key: string, value: i32)
    requires ProperFile(items) && ProperKey(key)
    ensures forall i | 0 <= i < |items| :: FileOf(items)[i] != ""
    ensures Lines(Copy(FileOf(items), key, value)) == FileOf(RewriteAll(items, key, value))
  {
    FileHasLines(items);
    var lines := FileOf(RewriteAll(items, key, value));
    CopyFirstOfItems(items, FileOf(items), lines, key, value, |items|);
    assert lines[..|items|] == lines;
    RewriteKeepsProper(items, key, value);
    FileHasLines(RewriteAll(items, key, value));
    LinesOfJoin(lines);
  }

  /** The setting `other` is read from is one of `key`, written without a space before its equals
      sign. */
  predicate Takes(items: seq<Item>, key: string, other: string) {
    items != []
    && if items[0].Setting? && other <= items[0].key then items[0].key == key && items[0].pad == 0
       else Takes(items[1..], key, other)
  }

  lemma SettingContainsItsKey(item: Item)
    requires item.Setting?
    ensures Contains(Line(item), item.key)
  {
    assert Line(item)[0..|item.key|] == item.key;
    assert OccursAt(Line(item), item.key, 0);
  }

  lemma {:induction false} LookupRewritten(items: seq<Item>, key: string, value: i32, other: string)
    ensures LookupPrefix(RewriteAll(items, key, value), other)
         == if Takes(items, key, other) then value else LookupPrefix(items, other)
    ensures Takes(items, key, other) && !Shadowed(items, other) ==> other == key
  {
    if items != [] {
      LookupRewritten(items[1..], key, value, other);
      assert RewriteAll(items, key, value)[1..] == RewriteAll(items[1..], key, value);
      if items[0].Setting? {
        SettingContainsItsKey(items[0]);
      }
    }
  }

  /** Rewriting any file of settings and reading it again: what was read from a setting of the
      rewritten key written tightly, as `key=value`, is now the new value, and everything else
      reads as before. No key that reads its own setting is affected by another. */
  lemma RewriteRoundTrip(items: seq<Item>, key: string, value: i32, other: string)
    requires ProperFile(items) && ProperKey(key) && ProperKey(other)
    ensures forall i | 0 <= i < |items| :: FileOf(items)[i] != ""
    ensures Read(Some(Lines(Copy(FileOf(items), key, value))), other)
         == if Takes(items, key, other) then value else Read(Some(FileOf(items)), other)
    ensures Takes(items, key, other) && !Shadowed(items, other) ==> other == key
  {
    RewriteKeepsProper(items, key, value);
    CopyRewritesItems(items, key, value);
    var after := RewriteAll(items, key, value);
    LookupRewritten(items, key, value, other);
    ReadIsLookupPrefix(items, other, 0);
    ReadIsLookupPrefix(after, other, 0);
    assert items[0..] == items && after[0..] == after;
  }

  lemma {:induction false} SpacedIsNotTaken(items: seq<Item>, key: string, other: string)
    requires forall i | 0 <= i < |items| && items[i].Setting? :: items[i].pad > 0
    ensures !Takes(items, key, other)
  {
    if items != [] {
      SpacedIsNotTaken(items[1..], key, other);
    }
  }

  /** No rewrite of any key changes what any key reads from a file whose settings are all written
      with a space before the equals sign. */
  lemma SpacedFileIsNotRewritten(items: seq<Item>, key: string, value: i32, other: string)
    requires ProperFile(items) && ProperKey(key) && ProperKey(other)
    requires forall i | 0 <= i < |items| && items[i].Setting? :: items[i].pad > 0
    ensures forall i | 0 <= i < |items| :: FileOf(items)[i] != ""
    ensures Read(Some(Lines(Copy(FileOf(items), key, value))), other) == Read(Some(FileOf(items)), other)
  {
    SpacedIsNotTaken(items, key, other);
    RewriteRoundTrip(items, key, value, other);
  }

  /** The shipped file is such a file. */
  function ShippedFile(): seq<Item> {
    [Setting("balloon_target_used_percent", 1, 1, 130), Setting("balloon_target_max_total_percent", 1, 1, 50)]
  }

  lemma {:induction false} ShippedFileText()
    ensures FileOf(ShippedFile())
         == ["balloon_target_used_percent = 130\n", "balloon_target_max_total_percent = 50\n"]
  {
    var items := ShippedFile();
    assert Print(130) == "130" && Print(50) == "50";
    assert Spaces(1) == " ";
    assert Line(items[0]) == "balloon_target_used_percent = 130\n";
    assert Line(items[1]) == "balloon_target_max_total_percent = 50\n";
  }

  lemma {:induction false} ShippedFileIsProper()
    ensures ProperFile(ShippedFile())
  {
  }

  lemma ShippedFileIsNotRewritten(key: string, value: i32, other: string)
    requires ProperKey(key) && ProperKey(other)
    ensures forall i | 0 <= i < |ShippedFile()| :: FileOf(ShippedFile())[i] != ""
    ensures Read(Some(Lines(Copy(FileOf(ShippedFile()), key, value))), other)
         == Read(Some(FileOf(ShippedFile())), other)
  {
    ShippedFileIsProper();
    SpacedFileIsNotRewritten(ShippedFile(), key, value, other);
  }
}
