/**
 * The violation reporter `_contract_fail`: it reduces the reporting file's
 * path to its base name, renders the local time into a 20-byte buffer,
 * writes one diagnostic line
 *
 *   [<timestamp>] <basename>:<line>|<condition>|<errno>(<description>)|<message>
 *
 * to the standard error stream, and aborts the process.
 */
module Contract {
  import opened Text

  /** C's `int`: the type of the `line` parameter and of `errno`. */
  type Int32 = x: int | -0x8000_0000 <= x < 0x8000_0000

  // ---------------------------------------------------------------------------
  // Base name of the reporting file
  // ---------------------------------------------------------------------------

  /**
   * The part of `file` after its last backslash; only when there is no
   * backslash at all, the part after its last forward slash; with neither,
   * the whole path. The backslash search wins even when a forward slash
   * comes after it.
   */
  function Basename(file: string): (base: string)
    ensures |base| <= |file| && base == file[|file| - |base|..]
    ensures '\\' !in base
    ensures '\\' !in file ==> '/' !in base
  {
    match LastIndexOf(file, '\\')
    case Some(i) => file[i + 1..]
    case None =>
      match LastIndexOf(file, '/')
      case Some(j) => file[j + 1..]
      case None => file
  }

  /** With a backslash in the path, the base name is what follows the last backslash. */
  lemma BasenameAfterLastBackslash(file: string, i: nat)
    requires i < |file| && file[i] == '\\' && '\\' !in file[i + 1..]
    ensures Basename(file) == file[i + 1..]
  {
  }

  /** Without a backslash, the base name is what follows the last forward slash. */
  lemma BasenameAfterLastSlash(file: string, i: nat)
    requires '\\' !in file
    requires i < |file| && file[i] == '/' && '/' !in file[i + 1..]
    ensures Basename(file) == file[i + 1..]
  {
  }

  /** A path with neither separator is its own base name. */
  lemma BasenameWithoutSeparator(file: string)
    requires '\\' !in file && '/' !in file
    ensures Basename(file) == file
  {
  }

  /** A path ending in the separator that is searched for has an empty base name. */
  lemma BasenameOfTrailingSeparator(file: string)
    requires |file| > 0
    requires file[|file| - 1] == '\\' || (file[|file| - 1] == '/' && '\\' !in file)
    ensures Basename(file) == ""
  {
    if file[|file| - 1] == '\\' {
      BasenameAfterLastBackslash(file, |file| - 1);
    } else {
      BasenameAfterLastSlash(file, |file| - 1);
    }
  }

  /** Both separator styles give the same base name. */
  lemma BasenameOfBothStyles()
    ensures Basename("/a/b/c.ext") == "c.ext"
    ensures Basename("a\\b\\c.ext") == "c.ext"
  {
    BasenameAfterLastSlash("/a/b/c.ext", 4);
    BasenameAfterLastBackslash("a\\b\\c.ext", 3);
  }

  /** In a mixed path the last backslash decides, even before a later forward slash. */
  lemma BasenameBackslashPriority()
    ensures Basename("x/y\\z/w.c") == "z/w.c"
    ensures Basename("a\\b/") == "b/"
  {
    BasenameAfterLastBackslash("x/y\\z/w.c", 3);
    BasenameAfterLastBackslash("a\\b/", 1);
  }

  // ---------------------------------------------------------------------------
  // Timestamp: strftime(datetime, 20, "%Y-%m-%d %H:%M:%S", localtime(&now))
  // ---------------------------------------------------------------------------

  /**
   * The fields of C's `struct tm` that the timestamp format reads: `year`
   * counts from 1900 (`tm_year`), `mon` from 0 (`tm_mon`).
   */
  datatype Tm = Tm(year: int, mon: int, mday: int, hour: int, min: int, sec: int) {
    /** The ranges `localtime` produces (a second of 60 is a leap second). */
    predicate Valid() {
      0 <= mon <= 11 && 1 <= mday <= 31 && 0 <= hour <= 23 && 0 <= min <= 59 && 0 <= sec <= 60
    }
  }

  /** `sizeof(datetime)`: nineteen characters and the terminator. */
  const DateTimeSize: nat := 20

  /** `%02d`-style two-digit field. */
  function TwoDigits(n: nat): (s: string)
    requires n < 100
    ensures |s| == 2 && IsDigit(s[0]) && IsDigit(s[1])
    ensures ParseNat(s) == Some(n)
  {
    var s := [DigitChar(n / 10), DigitChar(n % 10)];
    assert s[..1] == [s[0]];
    s
  }

  /**
   * The text "%Y-%m-%d %H:%M:%S" renders, before the buffer size is taken
   * into account: the year's digits and fifteen more characters, with no
   * ']' that would end the bracketed field and no line break.
   */
  function RenderTimestamp(t: Tm): (s: string)
    requires t.Valid()
    ensures |s| == |IntToDecimal(t.year + 1900)| + 15
    ensures ']' !in s && '\n' !in s
  {
    IntToDecimal(t.year + 1900) + "-" + TwoDigits(t.mon + 1) + "-" + TwoDigits(t.mday)
      + " " + TwoDigits(t.hour) + ":" + TwoDigits(t.min) + ":" + TwoDigits(t.sec)
  }

  /**
   * `strftime` into the 20-byte buffer: the rendering when it fits with its
   * terminator, None when it does not (strftime then returns 0 and the
   * buffer's contents are indeterminate).
   */
  function Strftime(t: Tm): (r: Option<string>)
    requires t.Valid()
    ensures r.Some? <==> |RenderTimestamp(t)| + 1 <= DateTimeSize
    ensures r.Some? ==> r.value == RenderTimestamp(t) && ']' !in r.value && '\n' !in r.value
  {
    var s := RenderTimestamp(t);
    if |s| + 1 <= DateTimeSize then Some(s) else None
  }

  /** Where the fields of a rendering with a four-character year sit. */
  lemma TimestampLayout(y: string, mo: string, d: string, h: string, mi: string, se: string)
    requires |y| == 4 && |mo| == 2 && |d| == 2 && |h| == 2 && |mi| == 2 && |se| == 2
    ensures var s := y + "-" + mo + "-" + d + " " + h + ":" + mi + ":" + se;
      && |s| == 19
      && s[4] == '-' && s[7] == '-' && s[10] == ' ' && s[13] == ':' && s[16] == ':'
      && s[0..4] == y && s[5..7] == mo && s[8..10] == d
      && s[11..13] == h && s[14..16] == mi && s[17..19] == se
  {
    var s := y + "-" + mo + "-" + d + " " + h + ":" + mi + ":" + se;
    assert s[0..4] == y;
    assert s[5..7] == mo by { assert s[5] == mo[0] && s[6] == mo[1]; }
    assert s[8..10] == d by { assert s[8] == d[0] && s[9] == d[1]; }
    assert s[11..13] == h by { assert s[11] == h[0] && s[12] == h[1]; }
    assert s[14..16] == mi by { assert s[14] == mi[0] && s[15] == mi[1]; }
    assert s[17..19] == se by { assert s[17] == se[0] && s[18] == se[1]; }
  }

  /**
   * For a four-digit year the timestamp is `YYYY-MM-DD HH:MM:SS`: nineteen
   * characters, so it fills the buffer exactly with its terminator, and each
   * numeric field reads back as the `struct tm` field it came from.
   */
  lemma TimestampShape(t: Tm)
    requires t.Valid() && 1000 <= t.year + 1900 <= 9999
    ensures Strftime(t).Some?
    ensures var s := Strftime(t).value;
      && |s| == 19 && |s| + 1 == DateTimeSize
      && s[4] == '-' && s[7] == '-' && s[10] == ' ' && s[13] == ':' && s[16] == ':'
      && ParseNat(s[0..4]) == Some(t.year + 1900)
      && ParseNat(s[5..7]) == Some(t.mon + 1)
      && ParseNat(s[8..10]) == Some(t.mday)
      && ParseNat(s[11..13]) == Some(t.hour)
      && ParseNat(s[14..16]) == Some(t.min)
      && ParseNat(s[17..19]) == Some(t.sec)
  {
    var y: nat := t.year + 1900;
    NatToDecimalLength(y, 4);
    NatToDecimalLength(y, 3);
    assert |IntToDecimal(y)| == 4;
    TimestampLayout(IntToDecimal(y), TwoDigits(t.mon + 1), TwoDigits(t.mday),
                    TwoDigits(t.hour), TwoDigits(t.min), TwoDigits(t.sec));
    NatToDecimalRoundTrip(y);
  }

  /**
   * From year 10000 on the rendering no longer fits the buffer, and neither
   * does it for year -1000 and below, whose sign makes the year five characters.
   */
  lemma TimestampOverflow(t: Tm)
    requires t.Valid() && (t.year + 1900 >= 10000 || t.year + 1900 <= -1000)
    ensures Strftime(t).None?
  {
    var y := t.year + 1900;
    if y >= 10000 {
      NatToDecimalLength(y, 4);
    } else {
      NatToDecimalLength(-y, 3);
    }
  }

  // ---------------------------------------------------------------------------
  // The diagnostic line
  // ---------------------------------------------------------------------------

  /** The values one diagnostic line carries, in the order it prints them. */
  datatype Violation = Violation(
    timestamp: string,
    file: string,
    line: int,
    condition: string,
    code: int,
    description: string,
    message: string)

  /** "[%s] %s:%d|%s|%d(%s)|%s\n" applied to the record's fields. */
  function FormatLine(v: Violation): (s: string)
    ensures |s| > 0 && s[|s| - 1] == '\n'
    ensures '\n' !in v.timestamp + v.file + v.condition + v.description + v.message
      ==> '\n' !in s[..|s| - 1]
  {
    var s := "[" + v.timestamp + "] " + v.file + ":" + IntToDecimal(v.line) + "|" + v.condition
      + "|" + IntToDecimal(v.code) + "(" + v.description + ")|" + v.message + "\n";
    assert s[..|s| - 1] == "[" + v.timestamp + "] " + v.file + ":" + IntToDecimal(v.line) + "|"
      + v.condition + "|" + IntToDecimal(v.code) + "(" + v.description + ")|" + v.message;
    s
  }

  /**
   * Reads a diagnostic line back into its fields: the timestamp up to the
   * first ']', the file up to the first ':', the line number and the
   * condition up to the next two '|', the code up to the first '(', the
   * description up to the next ")|", and the message up to the final newline.
   */
  function ParseLine(s: string): Option<Violation> {
    if |s| < 2 || s[0] != '[' || s[|s| - 1] != '\n' then None
    else
      var cut :- Cut(s[1..|s| - 1], ']');
      var timestamp, rest := cut.0, cut.1;
      if |rest| == 0 || rest[0] != ' ' then None
      else ParseLocation(timestamp, rest[1..])
  }

  /** `<file>:<line>|` and what follows it. */
  function ParseLocation(timestamp: string, s: string): Option<Violation> {
    var afterFile :- Cut(s, ':');
    var afterLine :- Cut(afterFile.1, '|');
    var line :- ParseInt(afterLine.0);
    ParseFailure(timestamp, afterFile.0, line, afterLine.1)
  }

  /** `<condition>|<code>(<description>)|<message>`. */
  function ParseFailure(timestamp: string, file: string, line: int, s: string): Option<Violation> {
    var afterCondition :- Cut(s, '|');
    var afterCode :- Cut(afterCondition.1, '(');
    var code :- ParseInt(afterCode.0);
    var afterDescription :- Cut(afterCode.1, '|');
    var closed := afterDescription.0;
    if |closed| == 0 || closed[|closed| - 1] != ')' then None
    else
      Some(Violation(timestamp, file, line, afterCondition.0, code,
                     closed[..|closed| - 1], afterDescription.1))
  }

  /** Fields that do not contain the delimiter that ends them. */
  predicate Unambiguous(v: Violation) {
    ']' !in v.timestamp && ':' !in v.file && '|' !in v.condition && '|' !in v.description
  }

  lemma DecimalHasNoDelimiter(n: int)
    ensures '|' !in IntToDecimal(n) && '(' !in IntToDecimal(n)
  {
    var s := IntToDecimal(n);
    forall i | 0 <= i < |s| ensures s[i] != '|' && s[i] != '(' {
    }
  }

  /** The line between its opening '[' and its newline, grouped at the delimiters a reader cuts at. */
  lemma LineLayout(timestamp: string, file: string, lineText: string, condition: string,
                   codeText: string, description: string, message: string)
    ensures var s := "[" + timestamp + "] " + file + ":" + lineText + "|" + condition
                     + "|" + codeText + "(" + description + ")|" + message + "\n";
      s[1..|s| - 1] == timestamp + "]" + (" " + (file + ":" + (lineText + "|" + (condition + "|"
        + (codeText + "(" + ((description + ")") + "|" + message))))))
  {
  }

  lemma ParseFailureRoundTrip(v: Violation)
    requires Unambiguous(v)
    ensures ParseFailure(v.timestamp, v.file, v.line,
      v.condition + "|" + (IntToDecimal(v.code) + "(" + ((v.description + ")") + "|" + v.message)))
      == Some(v)
  {
    var codeText := IntToDecimal(v.code);
    var closed := v.description + ")";
    DecimalHasNoDelimiter(v.code);
    CutConcat(v.condition, '|', codeText + "(" + (closed + "|" + v.message));
    CutConcat(codeText, '(', closed + "|" + v.message);
    CutConcat(closed, '|', v.message);
    IntToDecimalRoundTrip(v.code);
    assert closed[..|closed| - 1] == v.description;
  }

  lemma ParseLocationRoundTrip(v: Violation)
    requires Unambiguous(v)
    ensures ParseLocation(v.timestamp, v.file + ":" + (IntToDecimal(v.line) + "|" + (v.condition
      + "|" + (IntToDecimal(v.code) + "(" + ((v.description + ")") + "|" + v.message)))))
      == Some(v)
  {
    var lineText := IntToDecimal(v.line);
    var tail := v.condition + "|" + (IntToDecimal(v.code) + "(" + ((v.description + ")") + "|" + v.message));
    DecimalHasNoDelimiter(v.line);
    CutConcat(v.file, ':', lineText + "|" + tail);
    CutConcat(lineText, '|', tail);
    IntToDecimalRoundTrip(v.line);
    ParseFailureRoundTrip(v);
  }

  /** Every field of a line can be recovered from the text, in its order. */
  lemma FormatLineRoundTrip(v: Violation)
    requires Unambiguous(v)
    ensures ParseLine(FormatLine(v)) == Some(v)
  {
    var lineText, codeText := IntToDecimal(v.line), IntToDecimal(v.code);
    var location := v.file + ":" + (lineText + "|" + (v.condition + "|"
      + (codeText + "(" + ((v.description + ")") + "|" + v.message))));
    LineLayout(v.timestamp, v.file, lineText, v.condition, codeText, v.description, v.message);
    CutConcat(v.timestamp, ']', " " + location);
    assert (" " + location)[1..] == location;
    ParseLocationRoundTrip(v);
  }

  // ---------------------------------------------------------------------------
  // The failure path
  // ---------------------------------------------------------------------------

  /** The externally visible effects of the failure path, in order. */
  datatype Effect = WriteStderr(text: string) | Abort

  /**
   * `_contract_fail(cond, msg, file, line)` at local time `now`, with `errno`
   * holding `errno` and `strerror` standing for `contract_strerror`: one line
   * to the error stream, then termination. Nothing follows the abort, so the
   * call never returns to its caller.
   */
  function ContractFail(cond: string, msg: string, file: string, line: Int32,
                        now: Tm, errno: Int32, strerror: int -> string): (effects: seq<Effect>)
    requires now.Valid() && Strftime(now).Some?
    ensures |effects| == 2 && effects[0].WriteStderr? && effects[1] == Abort
    ensures |effects[0].text| > 0 && effects[0].text[|effects[0].text| - 1] == '\n'
  {
    var datetime := Strftime(now).value;
    var filename := Basename(file);
    [WriteStderr(FormatLine(Violation(datetime, filename, line, cond, errno, strerror(errno), msg))),
     Abort]
  }

  /**
   * The line the failure path writes carries the timestamp, the file's base
   * name, the line number, the condition text verbatim, the errno value with
   * the description of that same value, and the message verbatim.
   */
  lemma ContractFailReports(cond: string, msg: string, file: string, line: Int32,
                            now: Tm, errno: Int32, strerror: int -> string)
    requires now.Valid() && Strftime(now).Some?
    requires ':' !in Basename(file) && '|' !in cond && '|' !in strerror(errno)
    ensures ParseLine(ContractFail(cond, msg, file, line, now, errno, strerror)[0].text)
      == Some(Violation(Strftime(now).value, Basename(file), line, cond, errno, strerror(errno), msg))
  {
    FormatLineRoundTrip(
      Violation(Strftime(now).value, Basename(file), line, cond, errno, strerror(errno), msg));
  }
}
