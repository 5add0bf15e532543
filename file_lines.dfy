/**
 * How the reader sees a file's bytes: the lines fgets() hands back in the
 * read loop (`while (!feof($fp)) { $oneline = fgets($fp); ... }`), and the
 * newline count that countFileLines() takes chunk by chunk.
 */
module FileLines {
  import opened Wrappers
  import opened PhpText

  /** The size of the blocks countFileLines() reads with fread(). */
  const ChunkSize: nat := 8192

  /**
   * One fgets() call at byte offset pos: the line up to and including the
   * next LF, the offset after it, and whether feof() reports end of file
   * afterwards. End of file is only noticed by a read that runs out of
   * data, so after a line that ends exactly at the last LF feof() is still
   * false, and the next call returns `false`, here the empty line.
   */
  function Fgets(content: string, pos: nat): (r: (string, nat, bool))
    requires pos <= |content|
    ensures pos <= r.1 <= |content| && r.0 == content[pos..r.1]
    ensures r.2 <==> r.1 == |content| && '\n' !in r.0
    ensures !r.2 ==> r.1 > pos && content[r.1 - 1] == '\n' && '\n' !in content[pos..r.1 - 1]
  {
    match FirstIndexOf(content[pos..], '\n')
    case Some(i) =>
      assert content[pos..pos + i + 1][..i] == content[pos..][..i];
      (content[pos..pos + i + 1], pos + i + 1, false)
    case None => (content[pos..], |content|, true)
  }

  /** The lines the read loop hands to getValue() from offset pos on, in order. */
  function LinesFrom(content: string, pos: nat): seq<string>
    requires pos <= |content|
    decreases |content| - pos
  {
    var (line, next, eof) := Fgets(content, pos);
    if eof then [line] else [line] + LinesFrom(content, next)
  }

  /** The lines of a whole file, as the read loop sees them. */
  function Lines(content: string): seq<string> {
    LinesFrom(content, 0)
  }

  function Concat(lines: seq<string>): string {
    if lines == [] then [] else lines[0] + Concat(lines[1..])
  }

  /** The read loop sees one line per LF, plus one for the text after the last LF. */
  lemma {:induction false} LinesFromCount(content: string, pos: nat)
    requires pos <= |content|
    ensures |LinesFrom(content, pos)| == SubstrCount(content[pos..], '\n') + 1
    decreases |content| - pos
  {
    var (line, next, eof) := Fgets(content, pos);
    if !eof {
      LinesFromCount(content, next);
      OneLineCount(content, pos, next);
    } else {
      SubstrCountAbsent(content[pos..], '\n');
    }
  }

  /** From pos, a line that ends at its first LF holds one LF of the rest of the file. */
  lemma OneLineCount(content: string, pos: nat, next: nat)
    requires pos < next <= |content| && content[next - 1] == '\n' && '\n' !in content[pos..next - 1]
    ensures SubstrCount(content[pos..], '\n') == 1 + SubstrCount(content[next..], '\n')
  {
    var before := content[pos..next - 1];
    assert content[pos..] == (before + [content[next - 1]]) + content[next..];
    SubstrCountConcat(before + [content[next - 1]], content[next..], '\n');
    SubstrCountConcat(before, [content[next - 1]], '\n');
    SubstrCountAbsent(before, '\n');
  }

  /** Glued back together, the lines are the file's content again. */
  lemma {:induction false} LinesFromConcat(content: string, pos: nat)
    requires pos <= |content|
    ensures Concat(LinesFrom(content, pos)) == content[pos..]
    decreases |content| - pos
  {
    var (line, next, eof) := Fgets(content, pos);
    var ls := LinesFrom(content, pos);
    if eof {
      assert ls == [line] && ls[1..] == [];
      assert line + [] == line;
    } else {
      LinesFromConcat(content, next);
      assert ls[1..] == LinesFrom(content, next);
      assert content[pos..] == content[pos..next] + content[next..];
    }
  }

  /** Every line but the last ends with its only LF; the last has none. */
  lemma {:induction false} LinesFromShape(content: string, pos: nat)
    requires pos <= |content|
    ensures var ls := LinesFrom(content, pos);
      |ls| > 0 && '\n' !in ls[|ls| - 1] &&
      forall k :: 0 <= k < |ls| - 1 ==>
        ls[k] != [] && ls[k][|ls[k]| - 1] == '\n' && '\n' !in ls[k][..|ls[k]| - 1]
    decreases |content| - pos
  {
    var (line, next, eof) := Fgets(content, pos);
    if !eof {
      LinesFromShape(content, next);
      var ls := LinesFrom(content, pos);
      assert ls[1..] == LinesFrom(content, next);
      assert ls[0] == line && line[..|line| - 1] == content[pos..next - 1];
      forall k | 1 <= k < |ls| - 1
        ensures ls[k] != [] && ls[k][|ls[k]| - 1] == '\n' && '\n' !in ls[k][..|ls[k]| - 1]
      {
        assert ls[k] == ls[1..][k - 1];
      }
    }
  }

  lemma LinesCount(content: string)
    ensures |Lines(content)| == SubstrCount(content, '\n') + 1
  {
    LinesFromCount(content, 0);
    assert content[0..] == content;
  }

  lemma LinesConcat(content: string)
    ensures Concat(Lines(content)) == content
  {
    LinesFromConcat(content, 0);
    assert content[0..] == content;
  }

  /** A line that ends with an LF and holds no other one. */
  predicate Terminated(line: string) {
    line != [] && line[|line| - 1] == '\n' && '\n' !in line[..|line| - 1]
  }

  /** Every line of ls is terminated. */
  predicate AllTerminated(ls: seq<string>) {
    ls == [] || (Terminated(ls[0]) && AllTerminated(ls[1..]))
  }

  /** fgets() at the start of a terminated line returns exactly that line, and the loop goes on behind it. */
  lemma FgetsTerminated(content: string, pos: nat, line: string)
    requires pos + |line| <= |content| && content[pos..pos + |line|] == line && Terminated(line)
    ensures LinesFrom(content, pos) == [line] + LinesFrom(content, pos + |line|)
  {
    var next := pos + |line|;
    assert content[pos..next - 1] == line[..|line| - 1];
    FgetsAt(content, pos, next);
  }

  /** fgets() at pos stops at the first LF from pos on, and it is not at end of file yet. */
  lemma FgetsAt(content: string, pos: nat, next: nat)
    requires pos < next <= |content| && content[next - 1] == '\n' && '\n' !in content[pos..next - 1]
    ensures Fgets(content, pos) == (content[pos..next], next, false)
  {
    var k := next - 1 - pos;
    assert content[pos..][..k] == content[pos..next - 1];
    FirstIndexOfAt(content[pos..], '\n', k);
    assert pos + k + 1 == next;
  }

  /**
   * Text made of LF-terminated lines is read back as those lines and then
   * one empty line: after the last LF feof() is not yet true, and the
   * fgets() that finds nothing more yields the empty line.
   */
  lemma {:induction false} LinesFromTerminated(content: string, pos: nat, ls: seq<string>)
    requires pos <= |content| && content[pos..] == Concat(ls)
    requires AllTerminated(ls)
    ensures LinesFrom(content, pos) == ls + [""]
    decreases |ls|
  {
    if ls == [] {
      LinesAtEnd(content, pos);
    } else {
      SplitOffLine(content, pos, ls);
      var next := pos + |ls[0]|;
      LinesFromTerminated(content, next, ls[1..]);
      FgetsTerminated(content, pos, ls[0]);
      AppendAfterFirst(ls, LinesFrom(content, pos), LinesFrom(content, next));
    }
  }

  lemma AppendAfterFirst(ls: seq<string>, whole: seq<string>, rest: seq<string>)
    requires ls != [] && whole == [ls[0]] + rest && rest == ls[1..] + [""]
    ensures whole == ls + [""]
  {
    assert ls == [ls[0]] + ls[1..];
  }

  /** At the end of the file, one last fgets() yields the empty line. */
  lemma LinesAtEnd(content: string, pos: nat)
    requires pos <= |content| && content[pos..] == []
    ensures LinesFrom(content, pos) == [""]
  {
    assert Fgets(content, pos) == ([], pos, true);
  }

  lemma SplitOffLine(content: string, pos: nat, ls: seq<string>)
    requires pos <= |content| && content[pos..] == Concat(ls) && ls != []
    ensures pos + |ls[0]| <= |content|
    ensures content[pos..pos + |ls[0]|] == ls[0] && content[pos + |ls[0]|..] == Concat(ls[1..])
  {
    var rest := content[pos..];
    assert rest == ls[0] + Concat(ls[1..]);
    assert content[pos..pos + |ls[0]|] == rest[..|ls[0]|];
    assert content[pos + |ls[0]|..] == rest[|ls[0]|..];
  }

  lemma LinesOfTerminated(ls: seq<string>)
    requires AllTerminated(ls)
    ensures Lines(Concat(ls)) == ls + [""]
  {
    var content := Concat(ls);
    assert content[0..] == content;
    LinesFromTerminated(content, 0, ls);
  }

  /** The newline count taken k bytes at a time, as countFileLines() reads the file. */
  function ChunkedCount(s: string, k: nat): nat
    requires k > 0
    decreases |s|
  {
    if |s| <= k then SubstrCount(s, '\n')
    else SubstrCount(s[..k], '\n') + ChunkedCount(s[k..], k)
  }

  /** However the file is cut into chunks, the chunk counts add up to its newline count. */
  lemma {:induction false} ChunkedCountExact(s: string, k: nat)
    requires k > 0
    ensures ChunkedCount(s, k) == SubstrCount(s, '\n')
    decreases |s|
  {
    if |s| > k {
      ChunkedCountExact(s[k..], k);
      assert s == s[..k] + s[k..];
      SubstrCountConcat(s[..k], s[k..], '\n');
    }
  }

}
