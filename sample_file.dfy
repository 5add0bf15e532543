/**
 * The reader on one concrete file: four entries, a comment line and a
 * blank line, every line ending with LF:
 *
 *   a=1 / b=2.5 / c=yes / # comment / (empty) / d=hello
 *
 * The file has six LF bytes, so the line count is 7, and the read loop
 * meets a seventh, empty line after the last LF, which counts as blank.
 * "2.5" is numeric, so b is tagged INT and holds 2.
 */
module SampleFile {
  import opened PhpText
  import opened PhpNumeric
  import opened FileLines
  import opened ConfigEntries

  /** The sample file's lines, each with its LF. */
  const SampleLines: seq<string> := ["a=1\n", "b=2.5\n", "c=yes\n", "# comment\n", "\n", "d=hello\n"]

  /** The entries a first load of the sample file stores, in file order. */
  function SampleEntries(): seq<KeyValuePair> {
    [KeyValuePair("a", IntValue(1), IntType),
     KeyValuePair("b", IntValue(2), IntType),
     KeyValuePair("c", BoolValue(true), BooleanType),
     KeyValuePair("d", StringValue("hello"), StringType)]
  }

  /**
   * A first load of the sample file completes with 2 blank lines, 1
   * comment line and the four entries, and the line count is 7.
   */
  lemma SampleLoad(content: string)
    requires content == Concat(SampleLines)
    ensures SubstrCount(content, '\n') + 1 == 7
    ensures Scan(Tally(0, 0, []), Kinds(Lines(content))) == Completed(Tally(2, 1, SampleEntries()))
  {
    SampleIsLines(content);
    LinesCount(content);
    var es := SampleEntries();
    SampleNumberKinds(Lines(content), es);
    SampleWordKinds(Lines(content), es);
    SampleSkipKinds(Lines(content));
    ScanSeven(Kinds(Lines(content)), es[0], es[1], es[2], es[3]);
    assert es == [es[0], es[1], es[2], es[3]];
  }

  /** The first two entry lines of the sample file, both numeric. */
  lemma SampleNumberKinds(ls: seq<string>, es: seq<KeyValuePair>)
    requires |ls| == 7 && ls[0] == "a=1\n" && ls[1] == "b=2.5\n"
    requires es == SampleEntries()
    ensures var ks := Kinds(ls); ks[0] == Pair(es[0]) && ks[1] == Pair(es[1])
  {
    LineA(ls[0]);
    LineB(ls[1]);
  }

  /** The other two entry lines of the sample file: a yes word and a plain word. */
  lemma SampleWordKinds(ls: seq<string>, es: seq<KeyValuePair>)
    requires |ls| == 7 && ls[2] == "c=yes\n" && ls[5] == "d=hello\n"
    requires es == SampleEntries()
    ensures var ks := Kinds(ls); ks[2] == Pair(es[2]) && ks[5] == Pair(es[3])
  {
    LineC(ls[2]);
    LineD(ls[5]);
  }

  /** The comment line and the two blank lines of the sample file. */
  lemma SampleSkipKinds(ls: seq<string>)
    requires |ls| == 7 && ls[3] == "# comment\n" && ls[4] == "\n" && ls[6] == ""
    ensures var ks := Kinds(ls);
      ks[3] == Comment && ks[4] == Blank && ks[6] == Blank
  {
    LineComment(ls[3]);
    LineBlank(ls[4]);
    LineBlank(ls[6]);
  }

  /** A pass over entry, entry, entry, comment, blank, entry, blank. */
  lemma ScanSeven(k0: seq<LineKind>, a: KeyValuePair, b: KeyValuePair, c: KeyValuePair, d: KeyValuePair)
    requires |k0| == 7
    requires k0[0] == Pair(a) && k0[1] == Pair(b) && k0[2] == Pair(c)
    requires k0[3] == Comment && k0[4] == Blank && k0[5] == Pair(d) && k0[6] == Blank
    ensures Scan(Tally(0, 0, []), k0) == Completed(Tally(2, 1, [a, b, c, d]))
  {
    var k1 := k0[1..];
    var k2 := k1[1..];
    var k3 := k2[1..];
    var k4 := k3[1..];
    var k5 := k4[1..];
    var k6 := k5[1..];
    var k7 := k6[1..];
    assert k1[0] == k0[1] && k2[0] == k0[2] && k3[0] == k0[3] && k4[0] == k0[4];
    assert k5[0] == k0[5] && k6[0] == k0[6] && k7 == [];
    var t1 := Tally(0, 0, [a]);
    var t2 := Tally(0, 0, [a, b]);
    var t3 := Tally(0, 0, [a, b, c]);
    var t4 := Tally(0, 1, [a, b, c]);
    var t5 := Tally(1, 1, [a, b, c]);
    var t6 := Tally(1, 1, [a, b, c, d]);
    var t7 := Tally(2, 1, [a, b, c, d]);
    assert [] + [a] == [a] && [a] + [b] == [a, b] && [a, b] + [c] == [a, b, c] && [a, b, c] + [d] == [a, b, c, d];
    assert Scan(t7, k7) == Completed(t7);
    assert Scan(t6, k6) == Scan(t7, k7);
    assert Scan(t5, k5) == Scan(t6, k6);
    assert Scan(t4, k4) == Scan(t5, k5);
    assert Scan(t3, k3) == Scan(t4, k4);
    assert Scan(t2, k2) == Scan(t3, k3);
    assert Scan(t1, k1) == Scan(t2, k2);
    assert Scan(Tally(0, 0, []), k0) == Scan(t1, k1);
  }

  /** The read loop splits the sample file into its six lines and a final empty one. */
  lemma SampleIsLines(content: string)
    requires content == Concat(SampleLines)
    ensures var ls := Lines(content);
      |ls| == 7 && ls[0] == "a=1\n" && ls[1] == "b=2.5\n" && ls[2] == "c=yes\n" &&
      ls[3] == "# comment\n" && ls[4] == "\n" && ls[5] == "d=hello\n" && ls[6] == ""
  {
    SixTerminated(SampleLines);
    LinesOfTerminated(SampleLines);
  }

  lemma SixTerminated(ls: seq<string>)
    requires |ls| == 6
    requires forall i :: 0 <= i < 6 ==> Terminated(ls[i])
    ensures AllTerminated(ls)
  {
    assert ls[5..][1..] == [];
    assert ls[4..][1..] == ls[5..];
    assert ls[3..][1..] == ls[4..];
    assert ls[2..][1..] == ls[3..];
    assert ls[1..][1..] == ls[2..];
    assert AllTerminated(ls[5..]);
    assert AllTerminated(ls[4..]);
    assert AllTerminated(ls[3..]);
    assert AllTerminated(ls[2..]);
    assert AllTerminated(ls[1..]);
  }

  lemma LineA(line: string)
    requires line == "a=1\n"
    ensures Classify(line) == Pair(KeyValuePair("a", IntValue(1), IntType))
  {
    IntLine("a", "1", line);
  }

  lemma IntLine(name: string, value: string, line: string)
    requires name == "a" && value == "1" && line == name + "=" + value + "\n"
    ensures Classify(line) == Pair(KeyValuePair(name, IntValue(1), IntType))
  {
    PairLine(name, value);
    InferDecimal(1);
    assert DecimalString(1) == value;
  }

  lemma LineB(line: string)
    requires line == "b=2.5\n"
    ensures Classify(line) == Pair(KeyValuePair("b", IntValue(2), IntType))
  {
    FractionLine("b", "2.5", line);
  }

  lemma FractionLine(name: string, value: string, line: string)
    requires name == "b" && value == "2.5" && line == name + "=" + value + "\n"
    ensures Classify(line) == Pair(KeyValuePair(name, IntValue(2), IntType))
  {
    var whole, fraction := "2", "5";
    assert value == whole + "." + fraction;
    assert DigitsValue(whole) == 2 by {
      assert whole[..0] == [];
    }
    FractionValueLine(name, value, whole, fraction);
  }

  /** `name=whole.fraction` is stored as the INT holding the whole digits. */
  lemma FractionValueLine(name: string, value: string, whole: string, fraction: string)
    requires |name| == 1 && 'a' <= name[0] <= 'z'
    requires DigitsNonEmpty(whole) && AllDigits(fraction)
    requires value == whole + "." + fraction && IsTrimmed(value)
    ensures Classify(name + "=" + value + "\n") == Pair(KeyValuePair(name, IntValue(DigitsValue(whole)), IntType))
  {
    PairLine(name, value);
    InferFraction(whole, fraction);
  }

  lemma LineC(line: string)
    requires line == "c=yes\n"
    ensures Classify(line) == Pair(KeyValuePair("c", BoolValue(true), BooleanType))
  {
    YesLine("c", "yes", line);
  }

  lemma YesLine(name: string, value: string, line: string)
    requires name == "c" && value == "yes" && line == name + "=" + value + "\n"
    ensures Classify(line) == Pair(KeyValuePair(name, BoolValue(true), BooleanType))
  {
    LowerFixed(value);
    assert Lower(value) == TrueWords[0];
    TrueWordLine(name, value);
  }

  /** `name=value` with a yes-word for its value is stored as the boolean true. */
  lemma TrueWordLine(name: string, value: string)
    requires |name| == 1 && 'a' <= name[0] <= 'z'
    requires IsTrimmed(value) && Lower(value) in TrueWords
    ensures Classify(name + "=" + value + "\n") == Pair(KeyValuePair(name, BoolValue(true), BooleanType))
  {
    PairLine(name, value);
    InferBooleanWords(value);
  }

  lemma LineD(line: string)
    requires line == "d=hello\n"
    ensures Classify(line) == Pair(KeyValuePair("d", StringValue("hello"), StringType))
  {
    WordLine("d", "hello", line);
  }

  lemma WordLine(name: string, value: string, line: string)
    requires name == "d" && value == "hello" && line == name + "=" + value + "\n"
    ensures Classify(line) == Pair(KeyValuePair(name, StringValue(value), StringType))
  {
    PairLine(name, value);
    PlainWord(value);
  }

  /** "hello" is not numeric and not a yes/no word, so it stays a string. */
  lemma PlainWord(value: string)
    requires value == "hello"
    ensures InferType(value) == (StringType, StringValue(value))
  {
    LowerFixed(value);
    assert |TrueWords[0]| == 3 && |TrueWords[1]| == 2 && |TrueWords[2]| == 4 && |TrueWords[3]| == 1;
    assert |FalseWords[0]| == 2 && |FalseWords[1]| == 3 && |FalseWords[3]| == 1;
    assert FalseWords[2][0] != value[0];
    LetterWord(value);
  }

  /** A word that starts with a letter and is no yes/no word in any case stays a string. */
  lemma LetterWord(value: string)
    requires value != [] && 'a' <= LowerChar(value[0]) <= 'z'
    requires Lower(value) !in TrueWords && Lower(value) !in FalseWords
    ensures InferType(value) == (StringType, StringValue(value))
  {
    LetterNotNumeric(value);
  }

  /** `name=value` followed by LF, for a one-letter name and a value without trim characters at its ends. */
  lemma PairLine(name: string, value: string)
    requires |name| == 1 && 'a' <= name[0] <= 'z'
    requires IsTrimmed(value)
    ensures Classify(name + "=" + value + "\n") == Pair(MakePair(name, value))
  {
    var line := name + "=" + value + "\n";
    var e: string := [];
    assert e + name + e + "=" + e + value + "\n" == line;
    assert line[0] == name[0];
    ClassifyPairLine(e, name, e, e, value, "\n");
  }

  lemma LineComment(line: string)
    requires line == "# comment\n"
    ensures Classify(line) == Comment
  {
    TrimSurrounded([], "# comment", "\n");
    assert [] + "# comment" + "\n" == line;
    CommentIff(line);
  }

  lemma LineBlank(line: string)
    requires line == "\n" || line == ""
    ensures Classify(line) == Blank
  {
    BlankIff(line);
  }

}
