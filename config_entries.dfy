/**
 * The values of the configuration reader: the typed entries it stores,
 * how getValue() and isComment() classify one line, the type inference
 * chain, and the bookkeeping of a whole read pass as a fold over the
 * file's lines.
 */
module ConfigEntries {
  import opened Wrappers
  import opened PhpText
  import opened PhpNumeric

  /** The reader's type tags; Code() gives the class constants INT, FLOAT, STRING and BOOLEAN. */
  datatype DataType = IntType | FloatType | StringType | BooleanType {
    function Code(): (c: int)
      ensures 1 <= c <= 4
    {
      match this
      case IntType => 1
      case FloatType => 2
      case StringType => 3
      case BooleanType => 4
    }
  }

  /** Each tag has its own class constant. */
  lemma CodesDistinct(d: DataType, e: DataType)
    ensures d.Code() == e.Code() <==> d == e
  {
  }

  /** What PHP stores in an entry's untyped value field. No float is ever stored (see InferType). */
  datatype Value = IntValue(i: int) | BoolValue(b: bool) | StringValue(s: string)

  /** KeyValuePair: a name, its typed value, and the tag saying which type that is. */
  datatype KeyValuePair = KeyValuePair(name: string, value: Value, dataType: DataType)

  /** The tag names the kind of the stored value. */
  predicate Agrees(t: DataType, v: Value) {
    match v
    case IntValue(_) => t == IntType
    case BoolValue(_) => t == BooleanType
    case StringValue(_) => t == StringType
  }

  /** An entry as getValue() can build it: its tag agrees with its value, and it is never FLOAT. */
  predicate WellTyped(kv: KeyValuePair) {
    Agrees(kv.dataType, kv.value) && kv.dataType != FloatType
  }

  /** Every entry of a list is well typed, checked from the last one back. */
  predicate AllWellTyped(items: seq<KeyValuePair>) {
    items == [] || (AllWellTyped(items[..|items| - 1]) && WellTyped(items[|items| - 1]))
  }

  /** Each entry of a well-typed list is well typed. */
  lemma {:induction false} WellTypedAt(items: seq<KeyValuePair>, i: nat)
    requires AllWellTyped(items) && i < |items|
    ensures WellTyped(items[i])
  {
    if i < |items| - 1 {
      WellTypedAt(items[..|items| - 1], i);
    }
  }

  /** Storing one more well-typed entry keeps every entry well typed. */
  lemma AppendWellTyped(items: seq<KeyValuePair>, e: KeyValuePair)
    requires AllWellTyped(items) && WellTyped(e)
    ensures AllWellTyped(items + [e])
  {
    assert (items + [e])[..|items|] == items;
  }

  /** The class switch that turns yes/no words into booleans; it is on. */
  const ASSUME_BOOL := true
  const TrueWords: seq<string> := ["yes", "on", "true", "y"]
  const FalseWords: seq<string> := ["no", "off", "false", "n"]

  /**
   * The type inference chain of getValue(). The value is always a string,
   * so `is_float($value)` is false: the INT test reduces to is_numeric(),
   * and the FLOAT branch is never taken, so it has no case here.
   */
  function InferType(value: string): (r: (DataType, Value))
    ensures r.0 != FloatType
    ensures Agrees(r.0, r.1)
    ensures r.0 == StringType ==> r.1 == StringValue(value)
  {
    if IsNumeric(value) then (IntType, IntValue(IntCast(value)))
    else if Lower(value) in TrueWords && ASSUME_BOOL then (BooleanType, BoolValue(true))
    else if Lower(value) in FalseWords && ASSUME_BOOL then (BooleanType, BoolValue(false))
    else (StringType, StringValue(value))
  }

  /** Any integer written in decimal comes back as that integer, tagged INT. */
  lemma InferDecimal(n: int)
    ensures InferType(DecimalString(n)) == (IntType, IntValue(n))
  {
    DecimalRoundTrip(n);
  }

  /**
   * A decimal fraction is numeric too, so it is tagged INT and keeps only
   * its whole digits, with its sign: "2.5" gives 2 and "-2.5" gives -2.
   */
  lemma {:induction false} InferFraction(whole: string, fraction: string)
    requires DigitsNonEmpty(whole) && AllDigits(fraction)
    ensures InferType(whole + "." + fraction) == (IntType, IntValue(DigitsValue(whole)))
    ensures InferType("-" + whole + "." + fraction) == (IntType, IntValue(-(DigitsValue(whole) as int)))
  {
    FractionCast(whole, fraction);
    InferNumeric(whole + "." + fraction, DigitsValue(whole));
    var negative := "-" + whole + "." + fraction;
    InferNumeric(negative, -(DigitsValue(whole) as int));
  }

  /** Digits with a positive exponent are tagged INT with the scaled value: "1e3" gives 1000. */
  lemma InferExponent(whole: string, exp: string)
    requires DigitsNonEmpty(whole) && DigitsNonEmpty(exp)
    ensures InferType(whole + "e" + exp) == (IntType, IntValue(DigitsValue(whole) * Pow10(DigitsValue(exp))))
  {
    ExponentCast(whole, exp);
    InferNumeric(whole + "e" + exp, DigitsValue(whole) * Pow10(DigitsValue(exp)));
  }

  /** A numeric value is tagged INT and holds its (int) cast. */
  lemma InferNumeric(value: string, n: int)
    requires IsNumeric(value) && IntCast(value) == n
    ensures InferType(value) == (IntType, IntValue(n))
  {
  }

  /** A string that starts with a letter is never numeric. */
  lemma LetterNotNumeric(s: string)
    requires s != [] && ('a' <= LowerChar(s[0]) <= 'z')
    ensures !IsNumeric(s)
  {
  }

  /**
   * The yes/no words, in any mix of upper and lower case, become booleans:
   * none of them is numeric, so the INT test never shadows them.
   */
  lemma {:induction false} InferBooleanWords(s: string)
    ensures Lower(s) in TrueWords ==> InferType(s) == (BooleanType, BoolValue(true))
    ensures Lower(s) in FalseWords ==> InferType(s) == (BooleanType, BoolValue(false))
  {
    if Lower(s) in TrueWords || Lower(s) in FalseWords {
      WordsStartWithLetter(Lower(s));
      assert Lower(s)[0] == LowerChar(s[0]);
      LetterNotNumeric(s);
    }
  }

  /** Every yes/no word starts with a lower-case letter. */
  lemma WordsStartWithLetter(w: string)
    requires w in TrueWords || w in FalseWords
    ensures w != [] && 'a' <= w[0] <= 'z'
  {
  }

  /** The first one or two characters of a comment line, as configured in the class. */
  const CommentMarkers: seq<string> := ["#", "'", "/*", "//"]

  /** isComment()'s blank test: trims to nothing, or to the two characters backslash and n. */
  predicate IsBlankLine(line: string) {
    Trim(line) == "\\n" || Trim(line) == ""
  }

  /** isComment()'s marker test: the first character, or the first two, trimmed, is a marker. */
  predicate HasCommentMarker(line: string) {
    Trim(Prefix(line, 1)) in CommentMarkers || Trim(Prefix(line, 2)) in CommentMarkers
  }

  /** What one line of the file is to getValue(). */
  datatype LineKind = Blank | Comment | Malformed | Pair(entry: KeyValuePair)

  /** The entry for a name and the trimmed text of its value. */
  function MakePair(key: string, value: string): KeyValuePair {
    var (t, v) := InferType(value);
    KeyValuePair(key, v, t)
  }

  /**
   * getValue() on one line: blank, else comment, else split at the first
   * `=` into the trimmed name and the trimmed value text.
   */
  function Classify(line: string): LineKind {
    if IsBlankLine(line) then Blank
    else if HasCommentMarker(line) then Comment
    else match FirstIndexOf(line, '=')
      case None => Malformed
      case Some(pos) => Pair(MakePair(Trim(line[..pos]), Trim(line[pos + 1..])))
  }

  /**
   * The comment markers, read off the raw line: `#` or `'` first, slash-star or
   * slash-slash first, or `#` or `'` second behind one trim character.
   */
  predicate MarkerAtStart(line: string) {
    |line| > 0 &&
    (line[0] == '#' || line[0] == '\'' ||
     (|line| > 1 &&
      ((line[0] == '/' && (line[1] == '*' || line[1] == '/')) ||
       (IsTrimChar(line[0]) && (line[1] == '#' || line[1] == '\'')))))
  }

  /**
   * The marker test of isComment() holds exactly when the raw line starts
   * with a marker, or has one in second place behind a single trim
   * character; so " #x" is a comment and "  #x" is not.
   */
  lemma {:induction false} CommentMarkerIff(line: string)
    ensures HasCommentMarker(line) <==> MarkerAtStart(line)
  {
    if |line| == 0 {
      var one, two := Prefix(line, 1), Prefix(line, 2);
      assert one == [] && two == [];
      assert Trim(one) == [] && Trim(two) == [];
      IsMarkerIff([]);
    } else {
      FirstCharMarker(line);
      if |line| == 1 {
        assert Prefix(line, 2) == Prefix(line, 1);
      } else {
        FirstTwoMarker(line);
      }
    }
  }

  /** The one-character half of the marker test. */
  lemma FirstCharMarker(line: string)
    requires |line| > 0
    ensures Trim(Prefix(line, 1)) in CommentMarkers <==> line[0] == '#' || line[0] == '\''
  {
    var one := Prefix(line, 1);
    TrimOne(one);
    IsMarkerIff(Trim(one));
  }

  /** The two-character half of the marker test. */
  lemma FirstTwoMarker(line: string)
    requires |line| > 1
    ensures Trim(Prefix(line, 2)) in CommentMarkers <==>
      (line[0] == '/' && (line[1] == '*' || line[1] == '/')) ||
      (IsTrimChar(line[0]) && (line[1] == '#' || line[1] == '\'')) ||
      (IsTrimChar(line[1]) && (line[0] == '#' || line[0] == '\''))
  {
    var two := Prefix(line, 2);
    TrimTwo(two);
    var t := Trim(two);
    IsMarkerIff(t);
    if IsTrimChar(line[0]) && !IsTrimChar(line[1]) {
      assert t == two[1..] && |t| == 1 && t[0] == line[1];
    } else if !IsTrimChar(line[0]) && IsTrimChar(line[1]) {
      assert t == two[..1] && |t| == 1 && t[0] == line[0];
    }
  }

  /** The configured markers, character by character. */
  lemma IsMarkerIff(m: string)
    ensures m in CommentMarkers <==>
      (|m| == 1 && (m[0] == '#' || m[0] == '\'')) ||
      (|m| == 2 && m[0] == '/' && (m[1] == '*' || m[1] == '/'))
  {
    var hash, quote, block, line := CommentMarkers[0], CommentMarkers[1], CommentMarkers[2], CommentMarkers[3];
    assert |hash| == 1 && hash[0] == '#';
    assert |quote| == 1 && quote[0] == '\'';
    assert |block| == 2 && block[0] == '/' && block[1] == '*';
    assert |line| == 2 && line[0] == '/' && line[1] == '/';
    if |m| == 1 && m[0] == '#' { assert m == hash; }
    if |m| == 1 && m[0] == '\'' { assert m == quote; }
    if |m| == 2 && m[0] == '/' && m[1] == '*' { assert m == block; }
    if |m| == 2 && m[0] == '/' && m[1] == '/' { assert m == line; }
  }

  /** A marker behind one space still makes a comment. */
  lemma MarkerBehindOneSpace()
    ensures Classify(" #x") == Comment
  {
    var pad, body := " ", "#x";
    assert IsTrimmed(body) && AllTrimChars(pad);
    var line := pad + body;
    TrimSurrounded(pad, body, []);
    assert line + [] == line == " #x";
    CommentIff(line);
    assert line[1] == '#';
  }

  /** Behind two spaces it does not: the line is data, here without `=`. */
  lemma MarkerBehindTwoSpaces()
    ensures Classify("  #x") == Malformed
  {
    var pad, body := "  ", "#x";
    assert IsTrimmed(body) && AllTrimChars(pad);
    var line := pad + body;
    TrimSurrounded(pad, body, []);
    assert line + [] == line == "  #x";
    MalformedIff(line);
    assert line[2] == '#' && line[3] == 'x';
  }

  /**
   * A line is blank exactly when it is all trim characters or trims to
   * the two characters backslash and n; a blank line is never a comment.
   */
  lemma BlankIff(line: string)
    ensures Classify(line) == Blank <==> AllTrimChars(line) || Trim(line) == "\\n"
  {
    TrimSpec(line);
  }

  /** A non-blank line that starts with a marker is a comment, whatever follows, `=` included. */
  lemma CommentIff(line: string)
    ensures Classify(line) == Comment <==> !IsBlankLine(line) && MarkerAtStart(line)
  {
    CommentMarkerIff(line);
  }

  /** A non-blank line without a marker and without `=` is malformed. */
  lemma MalformedIff(line: string)
    ensures Classify(line) == Malformed <==> !IsBlankLine(line) && !MarkerAtStart(line) && '=' !in line
  {
    CommentMarkerIff(line);
  }

  /**
   * A line laid out as the format describes, `ws name ws = ws value ws`,
   * gives back exactly that name and value: the name may not hold `=`, but
   * the value may, since only the first `=` separates.
   */
  lemma {:induction false} ClassifyPairLine(pre: string, name: string, gap1: string, gap2: string, value: string, post: string)
    requires AllTrimChars(pre) && AllTrimChars(gap1) && AllTrimChars(gap2) && AllTrimChars(post)
    requires IsTrimmed(name) && IsTrimmed(value) && '=' !in name
    requires !MarkerAtStart(pre + name + gap1 + "=" + gap2 + value + post)
    ensures Classify(pre + name + gap1 + "=" + gap2 + value + post) == Pair(MakePair(name, value))
  {
    var before := pre + name + gap1;
    var after := gap2 + value + post;
    var line := before + "=" + after;
    assert line == pre + name + gap1 + "=" + gap2 + value + post;
    assert '=' !in pre && '=' !in gap1;
    SplitAtFirst(line, before, after);
    TrimSurrounded(pre, name, gap1);
    TrimSurrounded(gap2, value, post);
    NotBlankWith(line, |before|);
    CommentMarkerIff(line);
  }

  /** A line holding a character that trim() keeps, `=` here, is not blank. */
  lemma NotBlankWith(line: string, p: nat)
    requires p < |line| && line[p] == '='
    ensures !IsBlankLine(line)
  {
    TrimSpec(line);
    var t := Trim(line);
    var a := TrimStart(line);
    NoEqualsIn(line[..a]);
    NoEqualsIn(line[a + |t|..]);
    assert line == line[..a] + t + line[a + |t|..];
    assert '=' in line;
    assert '=' in t;
  }

  lemma NoEqualsIn(s: string)
    requires AllTrimChars(s)
    ensures '=' !in s
  {
  }

  /** strpos() finds the `=` that ends a prefix without one. */
  lemma SplitAtFirst(line: string, before: string, after: string)
    requires line == before + "=" + after && '=' !in before
    ensures FirstIndexOf(line, '=') == Some(|before|)
    ensures line[..|before|] == before && line[|before| + 1..] == after
  {
    var p := |before|;
    assert line[p] == '=' && line[..p] == before && line[p + 1..] == after;
  }

  /** The read pass's running totals: blank lines, comment lines and the entries so far. */
  datatype Tally = Tally(blank: nat, comments: nat, items: seq<KeyValuePair>)

  /** The bookkeeping isComment() and getValue() do for one classified line. */
  function Count(t: Tally, k: LineKind): Tally {
    match k
    case Blank => t.(blank := t.blank + 1)
    case Comment => t.(comments := t.comments + 1)
    case Malformed => t
    case Pair(kv) => t.(items := t.items + [kv])
  }

  /** The totals after an entry line: the counters as they were, the entry appended. */
  lemma CountStep(t: Tally, k: LineKind, blank: nat, comments: nat, items: seq<KeyValuePair>)
    requires k.Pair? && blank == t.blank && comments == t.comments && items == t.items + [k.entry]
    ensures Tally(blank, comments, items) == Count(t, k)
  {
  }

  /** How a read pass ends: every line processed, or stopped at a malformed one. */
  datatype ScanResult = Completed(tally: Tally) | Aborted(tally: Tally)

  /** What each line of a file is, in file order. */
  function Kinds(lines: seq<string>): (ks: seq<LineKind>)
    ensures |ks| == |lines|
    ensures forall i :: 0 <= i < |lines| ==> ks[i] == Classify(lines[i])
  {
    if lines == [] then [] else [Classify(lines[0])] + Kinds(lines[1..])
  }

  /**
   * readConfigFile(): the lines in order, stopping at the first malformed
   * one; what was counted before it stays counted.
   */
  function Scan(t: Tally, ks: seq<LineKind>): ScanResult
    decreases |ks|
  {
    if ks == [] then Completed(t)
    else if ks[0].Malformed? then Aborted(t)
    else Scan(Count(t, ks[0]), ks[1..])
  }

  /** The index of the first malformed line, if there is one. */
  function FirstMalformed(ks: seq<LineKind>): (r: Option<nat>)
    ensures r.Some? ==> r.value < |ks| && ks[r.value].Malformed?
    ensures r.Some? ==> forall j :: 0 <= j < r.value ==> !ks[j].Malformed?
    ensures r.None? ==> forall j :: 0 <= j < |ks| ==> !ks[j].Malformed?
  {
    if ks == [] then None
    else if ks[0].Malformed? then Some(0)
    else match FirstMalformed(ks[1..])
      case None => None
      case Some(i) => Some(i + 1)
  }

  /** The lines a read pass gets through: all of them, or those before the first malformed one. */
  function Processed(ks: seq<LineKind>): seq<LineKind> {
    match FirstMalformed(ks)
    case None => ks
    case Some(k) => ks[..k]
  }

  function Blanks(ks: seq<LineKind>): nat {
    if ks == [] then 0 else (if ks[0].Blank? then 1 else 0) + Blanks(ks[1..])
  }

  function Comments(ks: seq<LineKind>): nat {
    if ks == [] then 0 else (if ks[0].Comment? then 1 else 0) + Comments(ks[1..])
  }

  /** The entries of the pair lines, in file order. */
  function Pairs(ks: seq<LineKind>): seq<KeyValuePair> {
    if ks == [] then [] else (if ks[0].Pair? then [ks[0].entry] else []) + Pairs(ks[1..])
  }

  /** The totals t with the given lines' blanks, comments and entries added. */
  function AddLines(t: Tally, ks: seq<LineKind>): Tally {
    Tally(t.blank + Blanks(ks), t.comments + Comments(ks), t.items + Pairs(ks))
  }

  /**
   * A read pass completes exactly when no line is malformed; either way it
   * adds to the totals it started from the blanks, comments and entries
   * (in file order) of the lines before the first malformed one.
   */
  lemma {:induction false} ScanSpec(t: Tally, ks: seq<LineKind>)
    ensures Scan(t, ks) ==
      if FirstMalformed(ks).None? then Completed(AddLines(t, Processed(ks)))
      else Aborted(AddLines(t, Processed(ks)))
    decreases |ks|
  {
    if ks == [] {
      assert t.items + [] == t.items;
    } else if ks[0].Malformed? {
      assert Processed(ks) == [];
      assert t.items + [] == t.items;
    } else {
      ScanSpec(Count(t, ks[0]), ks[1..]);
      ProcessedCons(ks);
      AddLinesCons(t, ks[0], Processed(ks[1..]));
    }
  }

  lemma ProcessedCons(ks: seq<LineKind>)
    requires ks != [] && !ks[0].Malformed?
    ensures FirstMalformed(ks).None? == FirstMalformed(ks[1..]).None?
    ensures Processed(ks) == [ks[0]] + Processed(ks[1..])
  {
    match FirstMalformed(ks[1..])
    case None =>
      assert FirstMalformed(ks) == None;
      assert ks == [ks[0]] + ks[1..];
    case Some(i) =>
      assert FirstMalformed(ks) == Some(i + 1);
      assert ks[..i + 1] == [ks[0]] + ks[1..][..i];
  }

  lemma AddLinesCons(t: Tally, k: LineKind, rest: seq<LineKind>)
    requires !k.Malformed?
    ensures AddLines(t, [k] + rest) == AddLines(Count(t, k), rest)
  {
    var ks := [k] + rest;
    assert ks[0] == k && ks[1..] == rest;
    if k.Pair? {
      assert t.items + ([k.entry] + Pairs(rest)) == t.items + [k.entry] + Pairs(rest);
    } else {
      assert [] + Pairs(rest) == Pairs(rest);
    }
  }

  /** Without a malformed line, every line is a blank, a comment or an entry. */
  lemma {:induction false} KindsCoverLines(ks: seq<LineKind>)
    requires FirstMalformed(ks).None?
    ensures Blanks(ks) + Comments(ks) + |Pairs(ks)| == |ks|
    decreases |ks|
  {
    if ks != [] {
      assert !ks[0].Malformed?;
      KindsCoverLines(ks[1..]);
    }
  }

  /** One more line in front: its kind decides whether the pass stops there or counts it and goes on. */
  lemma ScanLine(t: Tally, line: string, rest: seq<string>)
    ensures Scan(t, Kinds([line] + rest)) ==
      if Classify(line).Malformed? then Aborted(t) else Scan(Count(t, Classify(line)), Kinds(rest))
  {
    var ls := [line] + rest;
    assert ls[0] == line && ls[1..] == rest;
    var ks := Kinds(ls);
    assert ks[0] == Classify(line) && ks[1..] == Kinds(rest);
  }

  /** A read pass only adds: no counter goes down and no entry is dropped or changed. */
  lemma ScanOnlyAdds(t: Tally, ks: seq<LineKind>)
    ensures var u := Scan(t, ks).tally;
      t.blank <= u.blank && t.comments <= u.comments && t.items <= u.items
  {
    ScanSpec(t, ks);
  }

  /**
   * When no line is malformed, the blank lines, the comment lines and the
   * entries a pass adds account for every line it read.
   */
  lemma ScanTotals(t: Tally, ks: seq<LineKind>)
    requires FirstMalformed(ks).None?
    ensures Scan(t, ks).Completed?
    ensures var u := Scan(t, ks).tally;
      u.blank + u.comments + |u.items| == t.blank + t.comments + |t.items| + |ks|
  {
    ScanSpec(t, ks);
    KindsCoverLines(ks);
  }

  /**
   * getParameterByName()'s search: the lowest index whose entry has that
   * name, or None when no entry has it.
   */
  function FirstMatch(items: seq<KeyValuePair>, name: string): (r: Option<nat>)
    ensures r.Some? ==> r.value < |items| && items[r.value].name == name
    ensures r.Some? ==> forall j :: 0 <= j < r.value ==> items[j].name != name
    ensures r.None? ==> forall j :: 0 <= j < |items| ==> items[j].name != name
  {
    if items == [] then None
    else if items[0].name == name then Some(0)
    else match FirstMatch(items[1..], name)
      case None => None
      case Some(i) => Some(i + 1)
  }

}
