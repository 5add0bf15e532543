/**
 * The ConfigReader object: where the configuration file is, what the
 * last check of it found, the entries read from it and the blank-line,
 * comment and parameter counters. The file system is a parameter, a map
 * from path to the file found there.
 */
module Reader {
  import opened Wrappers
  import opened PhpText
  import opened PhpNumeric
  import opened FileLines
  import opened ConfigEntries

  /** A file as the reader meets it: whether fopen() succeeds on it, and its bytes. */
  datatype FileInfo = FileInfo(readable: bool, content: string)

  /** The paths for which file_exists() is true, with their files. */
  type FileSystem = map<string, FileInfo>

  const NotFound := 900
  const CannotOpenForCount := 901
  const EmptyFile := 903
  const BlankPath := 905
  const InvalidLine := 906
  const CannotOpenForRead := 907
  const SizeBeforeSet := 908
  const CountFailed := 909
  const LinesBeforeSet := 910
  const LoadBeforeSet := 913
  const ParametersBeforeLoad := 916
  const BlanksBeforeLoad := 917
  const CommentsBeforeLoad := 918

  const BlankPathMessage := "Log file may not be blank."
  const SetFirstMessage := "You must first set the configuration file using setConfigFile()."
  const LoadFirstMessage := "You must first load the configuration file using loadConfigFile()."
  const EmptyFileMessage := "The specified file is 0 bytes (no data)."
  const OpenFailedMessage := "The file could not be opened."

  function NotFoundMessage(path: string): string {
    "The specified file '" + path + "' does not exist."
  }

  function ReadOpenMessage(path: string): string {
    "Could not open " + path
  }

  function InvalidLineMessage(lineno: int): string {
    "Invalid configuration data found on line " + DecimalString(lineno)
  }

  /** The error isFileValid() ends with for a path, or 0 when the file passes every test. */
  function FileError(fs: FileSystem, path: string): int {
    if path !in fs then NotFound
    else if |fs[path].content| == 0 then EmptyFile
    else if !fs[path].readable then CountFailed
    else 0
  }

  /** The message that goes with FileError(). */
  function FileErrorMessage(fs: FileSystem, path: string): string {
    if path !in fs then NotFoundMessage(path)
    else if |fs[path].content| == 0 then EmptyFileMessage
    else OpenFailedMessage
  }

  /** Whether readConfigFile() can open the path. */
  predicate CanRead(fs: FileSystem, path: string) {
    path in fs && fs[path].readable
  }

  /** One fread() of at most n bytes at offset pos. */
  function Fread(content: string, pos: nat, n: nat): (chunk: string)
    requires pos <= |content|
    ensures pos + |chunk| <= |content| && chunk == content[pos..pos + |chunk|]
    ensures |chunk| <= n
    ensures |chunk| == n || pos + |chunk| == |content|
  {
    Prefix(content[pos..], n)
  }

  /**
   * The read loop passes every line the line count counts: fgets() yields
   * one line more than there are LF bytes, however countFileLines() cuts
   * the file into chunks.
   */
  lemma ReadLoopMatchesLineCount(content: string)
    ensures |Lines(content)| == ChunkedCount(content, ChunkSize) + 1
  {
    LinesCount(content);
    ChunkedCountExact(content, ChunkSize);
  }

  /**
   * A first load of a file without malformed lines completes, and its
   * blank lines, comment lines and parameters add up to the file's line count.
   */
  lemma FreshLoadAccountsForEveryLine(content: string)
    requires FirstMalformed(Kinds(Lines(content))).None?
    ensures var r := Scan(Tally(0, 0, []), Kinds(Lines(content)));
      r.Completed? && r.tally.blank + r.tally.comments + |r.tally.items| == SubstrCount(content, '\n') + 1
  {
    ScanTotals(Tally(0, 0, []), Kinds(Lines(content)));
    LinesCount(content);
  }

  /**
   * A load that meets a malformed line keeps what the lines before it
   * added: exactly the blanks, comments and entries of those lines.
   */
  lemma AbortedLoadKeepsPrefix(t: Tally, content: string)
    requires FirstMalformed(Kinds(Lines(content))).Some?
    ensures var k := FirstMalformed(Kinds(Lines(content))).value;
      Scan(t, Kinds(Lines(content))) == Aborted(AddLines(t, Kinds(Lines(content)[..k])))
  {
    var ls := Lines(content);
    var k := FirstMalformed(Kinds(ls)).value;
    ScanSpec(t, Kinds(ls));
    assert Kinds(ls)[..k] == Kinds(ls[..k]);
  }

  /**
   * The counters and the entry list are never reset, so loading the same
   * file a second time stores every entry again and doubles the counts.
   */
  lemma ReloadRepeatsEntries(content: string)
    requires FirstMalformed(Kinds(Lines(content))).None?
    ensures var ks := Kinds(Lines(content));
      var first := Scan(Tally(0, 0, []), ks);
      var second := Scan(first.tally, ks);
      first.Completed? && second.Completed? &&
      second.tally.items == first.tally.items + first.tally.items &&
      second.tally.blank == 2 * first.tally.blank && second.tally.comments == 2 * first.tally.comments
  {
    var ks := Kinds(Lines(content));
    ScanSpec(Tally(0, 0, []), ks);
    var first := Scan(Tally(0, 0, []), ks).tally;
    ScanSpec(first, ks);
    assert [] + Pairs(ks) == Pairs(ks);
  }

  class ConfigReader {
    var ErrNo: int
    var Error: string
    var FileSize: nat
    var FileLines: nat
    var ConfigItems: seq<KeyValuePair>
    var ConfigFile: string
    var ConfigLoaded: bool
    var ParameterCount: nat
    var CommentCount: nat
    var WhiteSpaceCount: nat

    /**
     * The parameter count is the number of stored entries, every entry is
     * well typed, a loaded reader has a file, and a file that was accepted
     * has been counted.
     */
    ghost predicate Valid()
      reads this`ParameterCount, this`ConfigItems, this`ConfigLoaded, this`ConfigFile, this`FileLines
    {
      ParameterCount == |ConfigItems| &&
      AllWellTyped(ConfigItems) &&
      (ConfigLoaded ==> ConfigFile != "") &&
      (ConfigFile != "" ==> FileLines >= 1)
    }

    /** The running totals of the read passes so far. */
    function Tallied(): Tally
      reads this`WhiteSpaceCount, this`CommentCount, this`ConfigItems
    {
      Tally(WhiteSpaceCount, CommentCount, ConfigItems)
    }

    /**
     * A fresh reader; given a path, it checks the file and takes the path
     * only when the file passes. Nothing is loaded yet.
     */
    constructor (fs: FileSystem, logfile: string)
      ensures Valid()
      ensures ConfigItems == [] && CommentCount == 0 && WhiteSpaceCount == 0 && !ConfigLoaded
      ensures logfile == "" ==> ConfigFile == "" && ErrNo == 0 && Error == "" && FileSize == 0 && FileLines == 0
      ensures logfile != "" && FileError(fs, logfile) == 0 ==>
        ConfigFile == logfile && ErrNo == 0 && Error == "" &&
        FileSize == |fs[logfile].content| && FileLines == SubstrCount(fs[logfile].content, '\n') + 1
      ensures logfile != "" && FileError(fs, logfile) != 0 ==>
        ConfigFile == "" && ErrNo == FileError(fs, logfile) && Error == FileErrorMessage(fs, logfile) &&
        FileSize == (if logfile in fs then |fs[logfile].content| else 0) && FileLines == 0
    {
      ErrNo, Error := 0, "";
      FileSize, FileLines := 0, 0;
      ConfigItems, ConfigFile, ConfigLoaded := [], "", false;
      ParameterCount, CommentCount, WhiteSpaceCount := 0, 0, 0;
      new;
      if logfile != "" {
        var valid := IsFileValid(fs, logfile);
        if valid {
          ConfigFile := logfile;
        }
      }
    }

    /** setConfigFile(): take a non-empty path whose file passes the checks. */
    method SetConfigFile(fs: FileSystem, logfile: string) returns (ok: bool)
      requires Valid()
      modifies this`ErrNo, this`Error, this`FileSize, this`FileLines, this`ConfigFile
      ensures Valid()
      ensures ok <==> logfile != "" && FileError(fs, logfile) == 0
      ensures ok ==>
        ConfigFile == logfile && ErrNo == old(ErrNo) && Error == old(Error) &&
        FileSize == |fs[logfile].content| && FileLines == SubstrCount(fs[logfile].content, '\n') + 1
      ensures !ok ==> ConfigFile == old(ConfigFile) && FileLines == old(FileLines)
      ensures logfile == "" ==> ErrNo == BlankPath && Error == BlankPathMessage && FileSize == old(FileSize)
      ensures logfile != "" && !ok ==>
        ErrNo == FileError(fs, logfile) && Error == FileErrorMessage(fs, logfile) &&
        FileSize == (if logfile in fs then |fs[logfile].content| else old(FileSize))
    {
      if logfile == "" {
        RaiseError(BlankPath, BlankPathMessage);
        return false;
      }
      var valid := IsFileValid(fs, logfile);
      if !valid {
        return false;
      }
      ConfigFile := logfile;
      return true;
    }

    /**
     * loadConfigFile(): read the set file. The reader counts as loaded only
     * when every line was read; a failed load leaves the loaded flag as it
     * was and keeps whatever the lines before the failure added.
     */
    method LoadConfigFile(fs: FileSystem) returns (ok: bool)
      requires Valid()
      modifies this`ErrNo, this`Error, this`ConfigItems, this`ParameterCount, this`CommentCount,
        this`WhiteSpaceCount, this`ConfigLoaded
      ensures Valid()
      ensures ConfigFile == "" ==>
        !ok && ErrNo == LoadBeforeSet && Error == SetFirstMessage && Tallied() == old(Tallied())
      ensures ConfigFile != "" && !CanRead(fs, ConfigFile) ==>
        !ok && ErrNo == CannotOpenForRead && Error == ReadOpenMessage(ConfigFile) && Tallied() == old(Tallied())
      ensures ConfigFile != "" && CanRead(fs, ConfigFile) ==>
        var r := Scan(old(Tallied()), Kinds(Lines(fs[ConfigFile].content)));
        Tallied() == r.tally && (ok <==> r.Completed?) &&
        (ok ==> ErrNo == old(ErrNo) && Error == old(Error)) &&
        (!ok ==> ErrNo == InvalidLine && Error == InvalidLineMessage(1))
      ensures ConfigLoaded == (ok || old(ConfigLoaded))
    {
      if ConfigFile == "" {
        RaiseError(LoadBeforeSet, SetFirstMessage);
        return false;
      }
      var read := ReadConfigFile(fs);
      if !read {
        return false;
      }
      ConfigLoaded := true;
      return true;
    }

    /** clearError(): back to no error. */
    method ClearError()
      modifies this`ErrNo, this`Error
      ensures ErrNo == 0 && Error == ""
    {
      RaiseError(0, "");
    }

    /** getConfigFileSize(): the size found by the last file check, once a file is set. */
    method GetConfigFileSize() returns (r: Option<nat>)
      modifies this`ErrNo, this`Error
      ensures ConfigFile == "" ==> r == None && ErrNo == SizeBeforeSet && Error == SetFirstMessage
      ensures ConfigFile != "" ==> r == Some(FileSize) && ErrNo == old(ErrNo) && Error == old(Error)
    {
      if ConfigFile == "" {
        RaiseError(SizeBeforeSet, SetFirstMessage);
        return None;
      }
      return Some(FileSize);
    }

    /** getConfigLineCount(): the line count of the accepted file, once a file is set. */
    method GetConfigLineCount() returns (r: Option<nat>)
      requires Valid()
      modifies this`ErrNo, this`Error
      ensures ConfigFile == "" ==> r == None && ErrNo == LinesBeforeSet && Error == SetFirstMessage
      ensures ConfigFile != "" ==> r == Some(FileLines) && FileLines >= 1 && ErrNo == old(ErrNo) && Error == old(Error)
    {
      if ConfigFile == "" {
        RaiseError(LinesBeforeSet, SetFirstMessage);
        return None;
      }
      return Some(FileLines);
    }

    /** getParameterCount(): the number of stored entries, once a load has succeeded. */
    method GetParameterCount() returns (r: Option<nat>)
      requires Valid()
      modifies this`ErrNo, this`Error
      ensures !ConfigLoaded ==> r == None && ErrNo == ParametersBeforeLoad && Error == LoadFirstMessage
      ensures ConfigLoaded ==> r == Some(|ConfigItems|) && ErrNo == old(ErrNo) && Error == old(Error)
    {
      if !ConfigLoaded {
        RaiseError(ParametersBeforeLoad, LoadFirstMessage);
        return None;
      }
      return Some(ParameterCount);
    }

    /** getBlankLineCount(): the blank lines counted, once a load has succeeded. */
    method GetBlankLineCount() returns (r: Option<nat>)
      modifies this`ErrNo, this`Error
      ensures !ConfigLoaded ==> r == None && ErrNo == BlanksBeforeLoad && Error == LoadFirstMessage
      ensures ConfigLoaded ==> r == Some(Tallied().blank) && ErrNo == old(ErrNo) && Error == old(Error)
    {
      if !ConfigLoaded {
        RaiseError(BlanksBeforeLoad, LoadFirstMessage);
        return None;
      }
      return Some(WhiteSpaceCount);
    }

    /** getCommentCount(): the comment lines counted, once a load has succeeded. */
    method GetCommentCount() returns (r: Option<nat>)
      modifies this`ErrNo, this`Error
      ensures !ConfigLoaded ==> r == None && ErrNo == CommentsBeforeLoad && Error == LoadFirstMessage
      ensures ConfigLoaded ==> r == Some(Tallied().comments) && ErrNo == old(ErrNo) && Error == old(Error)
    {
      if !ConfigLoaded {
        RaiseError(CommentsBeforeLoad, LoadFirstMessage);
        return None;
      }
      return Some(CommentCount);
    }

    /**
     * getParameterByName(): the value of the first entry with that name,
     * or `false` when no entry has it (which a stored `false` also gives).
     * It works whether or not a load has succeeded, and changes nothing.
     */
    method GetParameterByName(name: string) returns (r: Value)
      requires Valid()
      ensures (exists i :: 0 <= i < |ConfigItems| && ConfigItems[i].name == name) ==>
        r == ConfigItems[FirstMatch(ConfigItems, name).value].value
      ensures (forall i :: 0 <= i < |ConfigItems| ==> ConfigItems[i].name != name) ==> r == BoolValue(false)
    {
      var i := 0;
      while i < ParameterCount
        invariant i <= ParameterCount
        invariant forall j :: 0 <= j < i ==> ConfigItems[j].name != name
      {
        if ConfigItems[i].name == name {
          FirstMatchAt(ConfigItems, name, i);
          return ConfigItems[i].value;
        }
        i := i + 1;
      }
      return BoolValue(false);
    }

    /** Parameter(): the entry at an index, without any check; PHP gives null outside the list. */
    method Parameter(index: int) returns (r: Option<KeyValuePair>)
      requires Valid()
      ensures r.Some? <==> 0 <= index < ParameterCount
      ensures r.Some? ==> r.value == ConfigItems[index] && WellTyped(r.value)
    {
      if 0 <= index < |ConfigItems| {
        WellTypedAt(ConfigItems, index);
        return Some(ConfigItems[index]);
      }
      return None;
    }

    /**
     * isFileValid(): the file must exist and not be empty, and the line
     * count must be able to open it. The size is recorded as soon as the
     * file is found, even when a later test fails; the failed line count
     * raises 901 first, which 909 then replaces.
     */
    method IsFileValid(fs: FileSystem, path: string) returns (ok: bool)
      modifies this`ErrNo, this`Error, this`FileSize, this`FileLines
      ensures ok <==> FileError(fs, path) == 0
      ensures ok ==>
        ErrNo == old(ErrNo) && Error == old(Error) &&
        FileLines == SubstrCount(fs[path].content, '\n') + 1 && FileLines >= 1
      ensures !ok ==> ErrNo == FileError(fs, path) && Error == FileErrorMessage(fs, path) && FileLines == old(FileLines)
      ensures FileSize == if path in fs then |fs[path].content| else old(FileSize)
    {
      if path !in fs {
        RaiseError(NotFound, NotFoundMessage(path));
        return false;
      }
      FileSize := |fs[path].content|;
      if FileSize == 0 {
        RaiseError(EmptyFile, EmptyFileMessage);
        return false;
      }
      var counted := CountFileLines(fs, path);
      if !counted {
        RaiseError(CountFailed, OpenFailedMessage);
        return false;
      }
      return true;
    }

    /**
     * countFileLines(): read the file in blocks of ChunkSize bytes until
     * end of file, count the LF bytes, and record one line more than that.
     */
    method CountFileLines(fs: FileSystem, path: string) returns (ok: bool)
      modifies this`ErrNo, this`Error, this`FileLines
      ensures ok <==> CanRead(fs, path)
      ensures ok ==> FileLines == SubstrCount(fs[path].content, '\n') + 1 && ErrNo == old(ErrNo) && Error == old(Error)
      ensures !ok ==> FileLines == old(FileLines) && ErrNo == CannotOpenForCount && Error == OpenFailedMessage
    {
      if !CanRead(fs, path) {
        RaiseError(CannotOpenForCount, OpenFailedMessage);
        return false;
      }
      var content := fs[path].content;
      var lines := 0;
      var pos := 0;
      var eof := false;
      while !eof
        invariant pos <= |content|
        invariant lines == SubstrCount(content[..pos], '\n')
        invariant eof ==> pos == |content|
        invariant ErrNo == old(ErrNo) && Error == old(Error)
        decreases |content| - pos, !eof
      {
        var chunk := Fread(content, pos, ChunkSize);
        SubstrCountSplit(content, pos, pos + |chunk|, '\n');
        lines := lines + SubstrCount(chunk, '\n');
        pos := pos + |chunk|;
        eof := |chunk| < ChunkSize;
      }
      assert content[..pos] == content;
      FileLines := lines + 1;
      return true;
    }

    /**
     * readConfigFile(): hand every line fgets() returns to getValue(), in
     * order, and stop at the first one it refuses. The line number passed
     * along is set to 1 at the top of every turn of the loop.
     */
    method ReadConfigFile(fs: FileSystem) returns (ok: bool)
      requires Valid()
      modifies this`ErrNo, this`Error, this`ConfigItems, this`ParameterCount, this`CommentCount, this`WhiteSpaceCount
      ensures Valid()
      ensures !CanRead(fs, ConfigFile) ==>
        !ok && ErrNo == CannotOpenForRead && Error == ReadOpenMessage(ConfigFile) && Tallied() == old(Tallied())
      ensures CanRead(fs, ConfigFile) ==>
        var r := Scan(old(Tallied()), Kinds(Lines(fs[ConfigFile].content)));
        Tallied() == r.tally && (ok <==> r.Completed?) &&
        (ok ==> ErrNo == old(ErrNo) && Error == old(Error)) &&
        (!ok ==> ErrNo == InvalidLine && Error == InvalidLineMessage(1))
    {
      if !CanRead(fs, ConfigFile) {
        RaiseError(CannotOpenForRead, ReadOpenMessage(ConfigFile));
        return false;
      }
      var content := fs[ConfigFile].content;
      var pos := 0;
      var eof := false;
      while !eof
        invariant Valid()
        invariant pos <= |content|
        invariant ErrNo == old(ErrNo) && Error == old(Error)
        invariant Scan(old(Tallied()), Kinds(Lines(content))) ==
          if eof then Completed(Tallied()) else Scan(Tallied(), Kinds(LinesFrom(content, pos)))
        decreases |content| - pos, !eof
      {
        var lineno := 1;
        var (line, next, atEnd) := Fgets(content, pos);
        ghost var before := Tallied();
        ghost var rest := if atEnd then [] else LinesFrom(content, next);
        assert LinesFrom(content, pos) == [line] + rest;
        ScanLine(before, line, rest);
        var good := GetValue(line, lineno);
        if !good {
          return false;
        }
        lineno := lineno + 1;
        pos, eof := next, atEnd;
      }
      return true;
    }

    /** raiseError(): record an error code and its message. */
    method RaiseError(errno: int, error: string)
      modifies this`ErrNo, this`Error
      ensures ErrNo == errno && Error == error
    {
      ErrNo, Error := errno, error;
    }

    /**
     * getValue(): count a blank or comment line, refuse a line without `=`
     * with 906, or store one more entry built from the first `=` split.
     */
    method GetValue(line: string, lineno: int) returns (ok: bool)
      requires Valid()
      modifies this`ErrNo, this`Error, this`ConfigItems, this`ParameterCount, this`CommentCount, this`WhiteSpaceCount
      ensures Valid()
      ensures ok <==> !Classify(line).Malformed?
      ensures ok ==> Tallied() == Count(old(Tallied()), Classify(line)) && ErrNo == old(ErrNo) && Error == old(Error)
      ensures !ok ==> Tallied() == old(Tallied()) && ErrNo == InvalidLine && Error == InvalidLineMessage(lineno)
    {
      ghost var t0 := Tallied();
      var skip := IsComment(line);
      if skip {
        SkippedLine(t0, line, WhiteSpaceCount, CommentCount);
      } else {
        var found := FirstIndexOf(line, '=');
        if found.None? {
          MalformedLine(line);
          RaiseError(InvalidLine, InvalidLineMessage(lineno));
          return false;
        }
        StorePair(line, found.value);
        CountStep(t0, Classify(line), WhiteSpaceCount, CommentCount, ConfigItems);
      }
      return true;
    }

    /**
     * The rest of getValue() for a line it splits at its first `=`: the
     * trimmed name and value text, the value's type, and the new entry
     * stored at index ParameterCount, the end of the list.
     */
    method StorePair(line: string, pos: nat)
      requires Valid()
      requires !IsBlankLine(line) && !HasCommentMarker(line) && FirstIndexOf(line, '=') == Some(pos)
      modifies this`ConfigItems, this`ParameterCount
      ensures Valid() && Classify(line).Pair?
      ensures ConfigItems == old(ConfigItems) + [Classify(line).entry] && ParameterCount == old(ParameterCount) + 1
    {
      var key := Trim(Prefix(line, pos));
      var value := Trim(line[pos + 1..]);
      var (dataType, v) := InferType(value);
      var entry := KeyValuePair(key, v, dataType);
      EntryLine(line, pos, key, value, entry);
      AppendWellTyped(ConfigItems, entry);
      ConfigItems := ConfigItems + [entry];
      ParameterCount := ParameterCount + 1;
    }

    /**
     * isComment(): a blank line adds to the blank count, else a line with a
     * leading marker adds to the comment count; either way it is skipped.
     */
    method IsComment(line: string) returns (skip: bool)
      modifies this`WhiteSpaceCount, this`CommentCount
      ensures skip <==> IsBlankLine(line) || HasCommentMarker(line)
      ensures WhiteSpaceCount == old(WhiteSpaceCount) + (if IsBlankLine(line) then 1 else 0)
      ensures CommentCount == old(CommentCount) + (if !IsBlankLine(line) && HasCommentMarker(line) then 1 else 0)
    {
      if Trim(line) == "\\n" || Trim(line) == "" {
        WhiteSpaceCount := WhiteSpaceCount + 1;
        return true;
      }
      if Trim(Prefix(line, 1)) in CommentMarkers || Trim(Prefix(line, 2)) in CommentMarkers {
        CommentCount := CommentCount + 1;
        return true;
      }
      return false;
    }
  }

  /** A line isComment() skips is blank or a comment, and counts as one. */
  lemma SkippedLine(t: Tally, line: string, blank: nat, comments: nat)
    requires IsBlankLine(line) || HasCommentMarker(line)
    requires blank == t.blank + (if IsBlankLine(line) then 1 else 0)
    requires comments == t.comments + (if !IsBlankLine(line) && HasCommentMarker(line) then 1 else 0)
    ensures !Classify(line).Malformed? && Tally(blank, comments, t.items) == Count(t, Classify(line))
  {
  }

  /** A line isComment() keeps and that has no `=` is malformed. */
  lemma MalformedLine(line: string)
    requires !IsBlankLine(line) && !HasCommentMarker(line) && '=' !in line
    ensures Classify(line) == Malformed
  {
  }

  /** The entry getValue() builds from a line it splits at its first `=` is the line's entry. */
  lemma EntryLine(line: string, pos: nat, key: string, value: string, entry: KeyValuePair)
    requires !IsBlankLine(line) && !HasCommentMarker(line) && FirstIndexOf(line, '=') == Some(pos)
    requires key == Trim(Prefix(line, pos)) && value == Trim(line[pos + 1..])
    requires entry == KeyValuePair(key, InferType(value).1, InferType(value).0)
    ensures Classify(line) == Pair(entry) && WellTyped(entry)
  {
    assert Prefix(line, pos) == line[..pos];
  }

  /** getParameterByName() stops at the lowest index with the name. */
  lemma FirstMatchAt(items: seq<KeyValuePair>, name: string, i: nat)
    requires i < |items| && items[i].name == name
    requires forall j :: 0 <= j < i ==> items[j].name != name
    ensures FirstMatch(items, name) == Some(i)
  {
  }

}
