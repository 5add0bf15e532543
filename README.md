# ConfigReader in Dafny

A model of `ConfigReader`, the PHP class that reads a `key=value`
configuration file into typed parameters, together with `KeyValuePair`,
the record each parameter is stored in.

The reader is used in two passes:

- `setConfigFile()` (or the constructor) checks the file. It must exist,
  be non-empty and open for reading. The check records the file's size
  and counts its lines chunk by chunk.
- `loadConfigFile()` reads the file line by line. Each line is a blank,
  a comment, or `name = value` split at the first `=`. A line that is
  none of these aborts the load with error 906.

Each value gets a type: numeric strings become INT, the words
yes/on/true/y and no/off/false/n (any case) become BOOLEAN, and anything
else stays a STRING. Accessors report the counters and look parameters
up by name or index. A failed file check, a failed load and a count
accessor called too early set `ErrNo` and `Error`. A name lookup
without a match and an index outside the list set no error.

Files:

- `wrappers.dfy`: `Option`.
- `php_text.dfy`: the PHP string built-ins the class uses: `trim`,
  `strpos`, `substr_count`, `strtolower`, `substr`.
- `php_numeric.dfy`: `is_numeric` and the `(int)` cast on numeric strings.
- `file_lines.dfy`: the lines the `fgets`/`feof` loop yields, and the
  chunked newline count.
- `config_entries.dfy`: entries, type inference, line classification,
  and a whole read pass as a fold (`Scan`) over the file's lines.
- `config_reader.dfy`: the `ConfigReader` class. Its fields are updated
  in place by its methods. The file system is a parameter: a map from
  path to the file found there (whether it opens, and its bytes).
- `sample_file.dfy`: the reader on one concrete six-line file.

### Quirks of the code

The model keeps each of these as the code has it.

- The class declares a `FLOAT` constant (cls_ConfigReader.php:24) and has
  a branch for it (:240-242). That branch tests `is_float()` on the
  trimmed value, which is a string, so the test is always false. A value
  such as `2.5` is numeric, so it takes the INT branch and is stored as
  `2`. No entry is ever FLOAT (`ConfigEntries.InferFraction`).
- `countFileLines()` adds 1 to the LF count for a final line without LF
  (:174), even when the file ends with LF. The read loop agrees with it:
  after the final LF, one more `fgets()` call yields an empty line, which
  counts as blank. For the file `a=1\nb=2.5\nc=yes\n# comment\n\nd=hello\n`
  the code records 7 lines, 2 blank lines, 1 comment and 4 parameters
  (`SampleFile.SampleLoad`).
- Error 906 always reports line 1. The line number is reset to 1 at the
  top of every turn of the read loop.
- A load never resets the counters or the entry list. A failed load keeps
  what the lines before the bad one added. A second load of the same file
  stores every entry again (`Reader.ReloadRepeatsEntries`). A failed load
  after a successful one leaves the reader marked loaded.
- `getParameterByName()` and `Parameter()` work before any load.
  `Parameter()` does no bounds check.
- The blank-line test compares the trimmed line with the two characters
  backslash and `n`, not with a newline.
- Comment markers are tested on the raw first one or two characters, each
  trimmed. So `" #x"` is a comment and `"  #x"` is a malformed line.
- A failing `setConfigFile()` still overwrites the recorded file size
  when the file exists, while the previous path stays set.

## Model

| member | source | states |
|---|---|---|
| PhpText.TrimSpec | include/cls_ConfigReader.php:229-230 | trim() keeps the middle of the string; everything it removes is trim characters; the result neither starts nor ends with one; it is empty exactly when the whole string is trim characters |
| PhpText.TrimSurrounded | include/cls_ConfigReader.php:229-230 | trim characters around an already trimmed string are exactly what trim() removes |
| PhpText.TrimLeftStrips | include/cls_ConfigReader.php:229-230 | ltrim() keeps a suffix that does not start with a trim character, and strips trim characters only |
| PhpText.TrimRightStrips | include/cls_ConfigReader.php:229-230 | rtrim() keeps a prefix that does not end with a trim character, and strips trim characters only |
| PhpText.FirstIndexOf | include/cls_ConfigReader.php:222-223 | strpos() with `=`: None exactly when there is no `=`; otherwise the index of the first one |
| PhpText.SubstrCountMultiset | include/cls_ConfigReader.php:171 | substr_count() of one character is the number of its occurrences |
| PhpText.SubstrCountConcat | include/cls_ConfigReader.php:169-174 | counting in two pieces and adding gives the count over the whole, which is what summing per chunk relies on |
| PhpText.LowerHasNoCapitals | include/cls_ConfigReader.php:243-246 | strtolower() leaves no ASCII capital, and lowering twice gives what lowering once gives |
| PhpText.LowerFixed | include/cls_ConfigReader.php:243-246 | strtolower() returns its argument unchanged exactly when the argument has no ASCII capital |
| PhpText.LowerCaseBlind | include/cls_ConfigReader.php:243-246 | two strings that differ only in the case of their letters lower to the same string, so the yes/no test ignores case |
| PhpText.Prefix | include/cls_ConfigReader.php:273 | substr($s, 0, n) is the first n characters, or all of a shorter string |
| PhpNumeric.ExponentFormIff | include/cls_ConfigReader.php:237 | the exponent parser accepts exactly nothing, or `e`/`E`, an optional sign and at least one digit |
| PhpNumeric.ParseNumeralComplete | include/cls_ConfigReader.php:237 | every string made of an optional sign, then digits, digits and a dot with optional digits, or a dot and digits, then an optional exponent, is numeric, and parses into exactly its sign, whole digits, fraction digits and exponent |
| PhpNumeric.ParseNumeralSound | include/cls_ConfigReader.php:237 | every numeric string is of that form, and the parsed numeral holds its pieces; with the previous row, is_numeric() accepts exactly the grammar |
| PhpNumeric.DecimalRoundTrip | include/cls_ConfigReader.php:237-239 | the decimal form of any integer is numeric, and the (int) cast gives that integer back |
| PhpNumeric.SignedDigits | include/cls_ConfigReader.php:237-239 | digits with an optional minus sign are numeric, and the (int) cast gives their value, negated after the sign |
| PhpNumeric.FractionCast | include/cls_ConfigReader.php:237-239 | for any whole digits w and fraction digits f, `w.f` and `-w.f` are numeric and the (int) cast gives w's value and its negation: the fraction is truncated toward zero |
| PhpNumeric.ExponentCast | include/cls_ConfigReader.php:237-239 | for any digits w and d, w followed by `e` and d is numeric, and the (int) cast gives w's value times ten to the power d |
| PhpNumeric.TruncateFraction | include/cls_ConfigReader.php:239 | a numeral without exponent casts to its whole digits' value, with its sign, whatever its fraction digits |
| FileLines.Fgets | include/cls_ConfigReader.php:187-189 | one fgets() returns the bytes up to and including the next LF; feof() becomes true only when no LF is left |
| FileLines.LinesCount | include/cls_ConfigReader.php:187-194 | the read loop sees one line more than there are LF bytes |
| FileLines.LinesConcat | include/cls_ConfigReader.php:187-194 | the lines the read loop sees, joined, are the whole file |
| FileLines.LinesFromShape | include/cls_ConfigReader.php:187-194 | every line but the last ends with its only LF; the last has none |
| FileLines.FgetsTerminated | include/cls_ConfigReader.php:187-189 | fgets() at the start of an LF-terminated line returns exactly that line and the loop goes on behind it |
| FileLines.LinesOfTerminated | include/cls_ConfigReader.php:187-194 | a file of LF-terminated lines is read as those lines followed by one empty line |
| FileLines.ChunkedCountExact | include/cls_ConfigReader.php:169-174 | counting LF bytes in 8192-byte chunks gives the newline count of the whole file |
| ConfigEntries.DataType.Code | include/cls_ConfigReader.php:23-26 | each tag's class constant lies between 1 and 4 |
| ConfigEntries.CodesDistinct | include/cls_ConfigReader.php:23-26 | two tags have the same class constant exactly when they are the same tag |
| ConfigEntries.InferType | include/cls_ConfigReader.php:237-252 | the inferred tag agrees with the stored value, is never FLOAT, and a STRING keeps the trimmed text unchanged |
| ConfigEntries.InferDecimal | include/cls_ConfigReader.php:237-239 | an integer written in decimal is tagged INT with that integer as value |
| ConfigEntries.InferFraction | include/cls_ConfigReader.php:237-242 | for any whole digits w and fraction digits f, `w.f` is tagged INT with w's value and `-w.f` with its negation; the FLOAT branch is not taken |
| ConfigEntries.InferExponent | include/cls_ConfigReader.php:237-242 | digits with a positive exponent are tagged INT with the scaled value, not FLOAT |
| ConfigEntries.InferBooleanWords | include/cls_ConfigReader.php:243-248 | yes/on/true/y in any case give BOOLEAN true, no/off/false/n give BOOLEAN false; the INT test never shadows them |
| ConfigEntries.CommentMarkerIff | include/cls_ConfigReader.php:273 | the marker test holds exactly when the raw line starts with `#`, `'`, `/*` or `//`, or has `#` or `'` behind a single trim character |
| ConfigEntries.MarkerBehindOneSpace | include/cls_ConfigReader.php:273 | `" #x"` is a comment line |
| ConfigEntries.MarkerBehindTwoSpaces | include/cls_ConfigReader.php:273 | `"  #x"` is a malformed line, not a comment |
| ConfigEntries.BlankIff | include/cls_ConfigReader.php:269-272 | a line is blank exactly when it is all trim characters or trims to backslash-n |
| ConfigEntries.CommentIff | include/cls_ConfigReader.php:268-278 | a non-blank line with a leading marker is a comment, even when it holds `=` |
| ConfigEntries.MalformedIff | include/cls_ConfigReader.php:220-227 | a line is refused exactly when it is not blank, has no marker and has no `=` |
| ConfigEntries.ClassifyPairLine | include/cls_ConfigReader.php:222-233 | `ws name ws = ws value ws` gives exactly that name and value; later `=` characters stay in the value |
| ConfigEntries.Kinds | include/cls_ConfigReader.php:187-190 | one classification per line, in file order |
| ConfigEntries.FirstMalformed | include/cls_ConfigReader.php:190-191 | the index of the first refused line; no line before it is refused |
| ConfigEntries.ScanSpec | include/cls_ConfigReader.php:187-194 | a read pass completes exactly when no line is refused; either way it adds the blanks, comments and entries of the lines before the first refused one, entries in file order |
| ConfigEntries.ScanOnlyAdds | include/cls_ConfigReader.php:182-197 | a pass never lowers a counter and never drops or changes a stored entry |
| ConfigEntries.ScanTotals | include/cls_ConfigReader.php:182-197 | without a refused line, blanks plus comments plus entries added equals the number of lines read |
| ConfigEntries.FirstMatch | include/cls_ConfigReader.php:119-126 | the lowest index whose entry has the name, or None when none has it |
| Reader.Fread | include/cls_ConfigReader.php:171 | one fread() returns the next bytes of the file: never more than n, and n of them unless the file ends first |
| Reader.ReadLoopMatchesLineCount | include/cls_ConfigReader.php:164-197 | the read loop sees exactly as many lines as the chunked count records |
| Reader.FreshLoadAccountsForEveryLine | include/cls_ConfigReader.php:164-197 | a first load without a refused line completes, and its blanks, comments and parameters add up to the file's line count |
| Reader.AbortedLoadKeepsPrefix | include/cls_ConfigReader.php:187-192 | a load that meets a refused line keeps exactly what the lines before it added |
| Reader.ReloadRepeatsEntries | include/cls_ConfigReader.php:63-73 | loading the same file twice stores every entry twice and doubles the blank and comment counts |
| Reader.ConfigReader.constructor | include/cls_ConfigReader.php:29-39 | nothing loaded; with a path, the file is checked and the path kept only when the check passes |
| Reader.ConfigReader.SetConfigFile | include/cls_ConfigReader.php:47-57 | a blank path fails with 905; otherwise succeeds exactly when the file check passes, setting the path, size and line count; on failure the path and line count stay as they were |
| Reader.ConfigReader.LoadConfigFile | include/cls_ConfigReader.php:63-73 | 913 without a path, 907 when the file does not open; otherwise the totals become those of the read pass, success exactly when it completes, and the loaded flag turns on only then |
| Reader.ConfigReader.ClearError | include/cls_ConfigReader.php:75-77 | error code 0 and empty message |
| Reader.ConfigReader.GetConfigFileSize | include/cls_ConfigReader.php:79-85 | 908 before a path is set, else the recorded size with the error untouched |
| Reader.ConfigReader.GetConfigLineCount | include/cls_ConfigReader.php:87-93 | 910 before a path is set, else the recorded line count, at least 1 |
| Reader.ConfigReader.GetParameterCount | include/cls_ConfigReader.php:95-101 | 916 before a successful load, else the number of stored entries |
| Reader.ConfigReader.GetBlankLineCount | include/cls_ConfigReader.php:103-109 | 917 before a successful load, else the blank-line count |
| Reader.ConfigReader.GetCommentCount | include/cls_ConfigReader.php:111-117 | 918 before a successful load, else the comment count |
| Reader.ConfigReader.GetParameterByName | include/cls_ConfigReader.php:119-126 | the value of the first entry with the name, or `false` when none has it; changes nothing |
| Reader.ConfigReader.Parameter | include/cls_ConfigReader.php:128-130 | the entry at an index inside the list, well typed; nothing outside it |
| Reader.ConfigReader.IsFileValid | include/cls_ConfigReader.php:137-158 | passes exactly when the file exists, is non-empty and opens; fails with 900, 903 or 909 in that order; the size is recorded as soon as the file is found |
| Reader.ConfigReader.CountFileLines | include/cls_ConfigReader.php:164-176 | 901 when the file does not open; else the line count is the LF count plus one |
| Reader.ConfigReader.ReadConfigFile | include/cls_ConfigReader.php:182-197 | 907 when the file does not open; else the totals follow the read pass over every line, and a refused line leaves 906 with line number 1 |
| Reader.ConfigReader.RaiseError | include/cls_ConfigReader.php:204-207 | records the code and the message |
| Reader.ConfigReader.GetValue | include/cls_ConfigReader.php:218-261 | fails with 906 exactly on a refused line; otherwise counts the blank or comment, or appends exactly one entry, and keeps the parameter count equal to the list length |
| Reader.ConfigReader.StorePair | include/cls_ConfigReader.php:228-256 | the entry stored for a line split at its first `=` is exactly that line's entry, appended at index ParameterCount, with the count one higher |
| Reader.ConfigReader.IsComment | include/cls_ConfigReader.php:268-278 | skips exactly the blank and the marked lines; a blank adds to the blank count only, a marked non-blank line to the comment count only |
| SampleFile.SampleLoad | include/cls_ConfigReader.php:164-261 | the six-line sample file has line count 7 and loads with 2 blanks, 1 comment and the entries a=1 (INT), b=2 (INT), c=true (BOOLEAN), d="hello" (STRING) |

## Left out

- The file system is a parameter, not real I/O. It is a map from path to
  whether the file opens and its bytes. Directories, permissions that
  change between calls, partial reads and read errors are not modelled.
  Error 902 (the size cannot be read) cannot arise in this model.
- `fclose()` is not modelled: it has no effect on any field.
- Reader.ConfigReader.GetParameterByName: compares names with exact string
  equality. PHP's `==` also treats two numeric names as equal when their
  numbers are (`"1"` and `"01"`).
- Reader.ConfigReader.Parameter: takes integer indexes only. PHP also
  accepts string keys, and returns null with a warning outside the list;
  here that is `None`.
- PhpNumeric.IntCast: is the exact value truncated toward zero. PHP goes
  through a double for fractions and exponents, and saturates or wraps
  outside the 64-bit range; neither is modelled.
- PhpNumeric.IsNumeric: surrounding whitespace is not accepted. After
  `trim()` only a form feed can still start or end a value, and such a
  value is treated as not numeric.
- The unused `$Log` field is not modelled.
- The `(float)` cast and the FLOAT tag appear only as `DataType.FloatType`.
  No path of the code reaches them.
- The demo scripts `example.php` and `index.php`, the test file and the
  debug dumper `dBug` are not part of this model. The repository's only
  unit test checks that an instance can be created.
- Each character stands for one byte. Multi-byte text is not modelled.
- Concurrency: PHP runs one request at a time, and the model has none.
