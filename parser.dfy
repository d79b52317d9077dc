/**
 * The assembler's parser: classification of source lines, the data and
 * label sub-parsers, and the two passes over a source file given as its
 * sequence of lines.
 */
module Parser {
  import opened Wrappers
  import opened Bits
  import opened Text
  import opened ErrHandler
  import opened SymbolTable
  import opened Encoder

  /** `LineContent`: what a source line holds. */
  datatype LineContent =
    | Label(name: string)
    | Instruction(mnemonic: string, args: seq<string>)
    | Data(bytes: seq<U8>)
    | SectionLine(section: Section)
    | NonRelevant

  // ------------------------------------------------------------------
  // Sections
  // ------------------------------------------------------------------

  /** `parsed_section`: `Code`/`code` wins over `Data`/`data`; anything else is WrongSection. */
  function ParsedSection(line: string, lineNum: nat): (r: Result<LineContent, LineError>)
    ensures r == Success(SectionLine(Code)) <==> Contains(line, "Code") || Contains(line, "code")
    ensures r == Success(SectionLine(Section.Data)) <==>
              !(Contains(line, "Code") || Contains(line, "code")) && (Contains(line, "Data") || Contains(line, "data"))
    ensures r.Failure? ==> r.error == WrongSection(Trim(line), lineNum)
  {
    if Contains(line, "Code") || Contains(line, "code") then Success(SectionLine(Code))
    else if Contains(line, "Data") || Contains(line, "data") then Success(SectionLine(Section.Data))
    else Failure(WrongSection(Trim(line), lineNum))
  }

  // ------------------------------------------------------------------
  // Labels
  // ------------------------------------------------------------------

  /** Rust slices `line[0..len-1]` by bytes: that panics unless the last character is one byte. */
  predicate LabelSliceOk(line: string) {
    multiset(line)[':'] <= 1 ==> line != [] && IsAsciiChar(line[|line| - 1])
  }

  /**
   * `parsed_label`: more than one colon is LabelMoreColon; otherwise the label
   * is the line without its last character, and a space or tab in it is
   * LabelWhitespace.
   */
  function ParsedLabel(line: string, lineNum: nat): (r: Result<LineContent, LineError>)
    requires LabelSliceOk(line)
    ensures (r.Failure? && r.error.LabelMoreColon?) <==> multiset(line)[':'] > 1
    ensures r.Success? ==> r.value.Label? && r.value.name + [line[|line| - 1]] == line
    ensures r.Success? ==> ' ' !in r.value.name && '\t' !in r.value.name
    ensures r.Failure? && !r.error.LabelMoreColon? ==>
              r.error == LabelWhitespace(line[..|line| - 1], lineNum) && (' ' in line[..|line| - 1] || '\t' in line[..|line| - 1])
  {
    if multiset(line)[':'] > 1 then Failure(LabelMoreColon(Trim(line), lineNum))
    else
      var l := line[..|line| - 1];
      if ' ' in l || '\t' in l then Failure(LabelWhitespace(l, lineNum))
      else Success(Label(l))
  }

  // ------------------------------------------------------------------
  // Instructions
  // ------------------------------------------------------------------

  /**
   * `parsed_instruction`: split at single spaces; an ASCII first word is the
   * mnemonic, lower-cased, and the other words are the arguments.
   */
  function ParsedInstruction(line: string, lineNum: nat): (r: Result<LineContent, LineError>)
    ensures r.Success? <==> IsAscii(Split(line, ' ')[0])
    ensures r.Success? ==> r.value.Instruction? && r.value.mnemonic == ToLowerAscii(Split(line, ' ')[0])
    ensures r.Success? ==> Join([Split(line, ' ')[0]] + r.value.args, ' ') == line
    ensures r.Failure? ==> r.error == Unrecognized(Trim(line), lineNum)
  {
    var instr := Split(line, ' ');
    if IsAscii(instr[0]) then
      JoinSplit(line, ' ');
      assert [instr[0]] + instr[1..] == instr;
      Success(Instruction(ToLowerAscii(instr[0]), instr[1..]))
    else
      Failure(Unrecognized(Trim(line), lineNum))
  }

  /** Joining more than one piece: the first, the separator, and the join of the others. */
  lemma JoinFirst(ps: seq<string>, c: char)
    requires |ps| >= 1
    ensures |Join(ps, c)| >= |ps[0]| && Join(ps, c)[..|ps[0]|] == ps[0]
    ensures |ps| == 1 ==> Join(ps, c) == ps[0]
    ensures |ps| > 1 ==> Join(ps, c) == ps[0] + [c] + Join(ps[1..], c)
  {
  }

  // ------------------------------------------------------------------
  // Data
  // ------------------------------------------------------------------

  const BACKSLASH: U8 := 0x5C
  const LETTER_N: U8 := 0x6E
  const LETTER_T: U8 := 0x74
  const NEWLINE: U8 := 0x0A
  const TAB: U8 := 0x09

  /** A backslash followed by `n` or `t` at position i. */
  predicate EscapeAt(s: seq<U8>, i: nat)
    requires i + 1 < |s|
  {
    s[i] == BACKSLASH && (s[i + 1] == LETTER_N || s[i + 1] == LETTER_T)
  }

  function ControlFor(letter: U8): U8 {
    if letter == LETTER_N then NEWLINE else TAB
  }

  /**
   * What `replace_control_ascii` computes: scanning from the left, each
   * backslash followed by `n` or `t` becomes one newline or tab byte; every
   * other byte is kept.
   */
  function Unescape(s: seq<U8>): (r: seq<U8>)
    ensures |r| <= |s|
  {
    if |s| >= 2 && EscapeAt(s, 0) then [ControlFor(s[1])] + Unescape(s[2..])
    else if s == [] then []
    else [s[0]] + Unescape(s[1..])
  }

  /** The two-byte escapes for newline and tab; the inverse of Unescape on text without backslashes. */
  function Escape(s: seq<U8>): (r: seq<U8>)
    ensures |r| >= |s|
  {
    if s == [] then []
    else if s[0] == NEWLINE then [BACKSLASH, LETTER_N] + Escape(s[1..])
    else if s[0] == TAB then [BACKSLASH, LETTER_T] + Escape(s[1..])
    else [s[0]] + Escape(s[1..])
  }

  /** Bytes without a backslash are not changed. */
  lemma {:induction false} UnescapePlain(s: seq<U8>)
    requires BACKSLASH !in s
    ensures Unescape(s) == s
  {
    if s != [] {
      UnescapePlain(s[1..]);
    }
  }

  /** A backslash and `n` or `t` in front collapse into the control byte. */
  lemma UnescapeControl(letter: U8, rest: seq<U8>)
    requires letter == LETTER_N || letter == LETTER_T
    ensures Unescape([BACKSLASH, letter] + rest) == [ControlFor(letter)] + Unescape(rest)
  {
    var e := [BACKSLASH, letter] + rest;
    assert EscapeAt(e, 0) && e[2..] == rest;
  }

  /** A byte that is no backslash in front is kept. */
  lemma UnescapeOther(b: U8, rest: seq<U8>)
    requires b != BACKSLASH
    ensures Unescape([b] + rest) == [b] + Unescape(rest)
  {
    var e := [b] + rest;
    assert e[1..] == rest;
  }

  /** Unescaping the escaped form of backslash-free bytes gives them back. */
  lemma {:induction false} UnescapeEscape(s: seq<U8>)
    requires BACKSLASH !in s
    ensures Unescape(Escape(s)) == s
  {
    if s != [] {
      UnescapeEscape(s[1..]);
      if s[0] == NEWLINE {
        UnescapeControl(LETTER_N, Escape(s[1..]));
      } else if s[0] == TAB {
        UnescapeControl(LETTER_T, Escape(s[1..]));
      } else {
        UnescapeOther(s[0], Escape(s[1..]));
      }
      assert s == [s[0]] + s[1..];
    }
  }

  /** The number of escapes Unescape collapses. */
  function EscapeCount(s: seq<U8>): nat
  {
    if |s| >= 2 && EscapeAt(s, 0) then 1 + EscapeCount(s[2..])
    else if s == [] then 0
    else EscapeCount(s[1..])
  }

  /** Each collapsed escape shortens the bytes by one. */
  lemma {:induction false} UnescapeLength(s: seq<U8>)
    ensures |Unescape(s)| + EscapeCount(s) == |s|
  {
    if |s| >= 2 && EscapeAt(s, 0) {
      UnescapeLength(s[2..]);
    } else if s != [] {
      UnescapeLength(s[1..]);
    }
  }

  /**
   * `replace_control_ascii`, in place on a byte vector: `s[i]` is overwritten
   * with the control byte and `s[i + 1]` removed. The source computes
   * `len - 1` on an unsigned length, so the vector must not be empty.
   */
  method ReplaceControlAscii(s0: seq<U8>) returns (s: seq<U8>)
    requires |s0| > 0
    ensures s == Unescape(s0)
  {
    s := s0;
    var vecLen := |s|;
    var i := 0;
    while i < vecLen - 1
      invariant vecLen == |s| && 1 <= vecLen
      invariant 0 <= i <= vecLen
      invariant s[..i] + Unescape(s[i..]) == Unescape(s0)
    {
      if s[i] == BACKSLASH && (s[i + 1] == LETTER_N || s[i + 1] == LETTER_T) {
        ghost var before := s;
        if s[i + 1] == LETTER_N {
          s := s[i := NEWLINE];
        } else if s[i + 1] == LETTER_T {
          s := s[i := TAB];
        }
        s := s[..i + 1] + s[i + 2..];
        vecLen := vecLen - 1;
        CollapseStep(before, s, i);
      } else {
        KeepStep(s, i);
      }
      i := i + 1;
    }
    UnescapeShort(s[i..]);
    assert s[..i] + s[i..] == s;
  }

  /** One collapsed escape moves the scan past the control byte it wrote. */
  lemma CollapseStep(before: seq<U8>, after: seq<U8>, i: nat)
    requires i + 1 < |before| && EscapeAt(before, i)
    requires after == before[i := ControlFor(before[i + 1])][..i + 1] + before[i + 2..]
    ensures after[..i + 1] + Unescape(after[i + 1..]) == before[..i] + Unescape(before[i..])
  {
    assert before[i..][2..] == before[i + 2..];
    assert Unescape(before[i..]) == [ControlFor(before[i + 1])] + Unescape(before[i + 2..]);
    assert after[..i + 1] == before[..i] + [ControlFor(before[i + 1])];
    assert after[i + 1..] == before[i + 2..];
  }

  /** A byte that does not start an escape is kept as it is. */
  lemma KeepStep(s: seq<U8>, i: nat)
    requires i < |s| && !(i + 1 < |s| && EscapeAt(s, i))
    ensures s[..i + 1] + Unescape(s[i + 1..]) == s[..i] + Unescape(s[i..])
  {
    assert s[i..][1..] == s[i + 1..];
    assert Unescape(s[i..]) == [s[i]] + Unescape(s[i + 1..]);
    assert s[..i + 1] == s[..i] + [s[i]];
  }

  lemma UnescapeShort(s: seq<U8>)
    requires |s| <= 1
    ensures Unescape(s) == s
  {
  }

  /** The big-endian byte pairs of 16-bit words, most significant byte first. */
  function WordsToBytes(ws: seq<U16>): (bs: seq<U8>)
    ensures |bs| == 2 * |ws|
  {
    if ws == [] then []
    else
      var last := ws[|ws| - 1];
      WordsToBytes(ws[..|ws| - 1]) + [last / 0x100, last % 0x100]
  }

  /** Word k sits at bytes 2k (msb) and 2k + 1 (lsb). */
  lemma {:induction false} WordsToBytesAt(ws: seq<U16>, k: nat)
    requires k < |ws|
    ensures WordsToBytes(ws)[2 * k] == ws[k] / 0x100 && WordsToBytes(ws)[2 * k + 1] == ws[k] % 0x100
  {
    var front := ws[..|ws| - 1];
    if k < |ws| - 1 {
      WordsToBytesAt(front, k);
    }
  }

  /** A byte widened to a word (`c as u16`). */
  function BytesAsWords(bs: seq<U8>): (ws: seq<U16>)
    ensures |ws| == |bs| && forall k :: 0 <= k < |bs| ==> ws[k] == bs[k]
  {
    seq(|bs|, k requires 0 <= k < |bs| => bs[k] as U16)
  }

  /** An item of a numeric data line: its `i16` value, or 0 when it does not parse. */
  function ItemValue(item: string): (v: I16)
    ensures ParseInt(Trim(item), -0x8000, 0x7FFF).Some? ==> v == ParseInt(Trim(item), -0x8000, 0x7FFF).value
    ensures ParseInt(Trim(item), -0x8000, 0x7FFF).None? ==> v == 0
  {
    match ParseInt(Trim(item), -0x8000, 0x7FFF)
    case Some(v) => v
    case None => 0
  }

  /** The words of a numeric data line: one per comma-separated item. */
  function NumericWords(items: seq<string>): (ws: seq<U16>)
    ensures |ws| == |items| && forall k :: 0 <= k < |items| ==> ws[k] == ToUnsigned(ItemValue(items[k]))
  {
    seq(|items|, k requires 0 <= k < |items| => ToUnsigned(ItemValue(items[k])))
  }

  /** The words of a string data line: its unescaped UTF-8 bytes and a terminating 0. */
  function StringWords(line: string): (ws: seq<U16>)
    ensures |ws| >= 1 && ws[|ws| - 1] == 0
  {
    BytesAsWords(Unescape(Utf8(TrimMatches(line, '"'))) + [0])
  }

  /**
   * `parsed_data`: a line starting with `"` is a string (one word per byte and
   * a terminating 0), a line starting with a digit is a comma-separated list of
   * `i16` (an item that does not parse is 0); every word is emitted as
   * `[msb, lsb]`. An empty string yields just the terminating word.
   */
  function DataLine(line: string, lineNum: nat): (r: Result<LineContent, LineError>)
    ensures r.Success? ==> r.value.Data?
    ensures r.Success? && "\"" <= line ==> r.value.bytes == WordsToBytes(StringWords(line))
    ensures r.Success? && !("\"" <= line) ==> r.value.bytes == WordsToBytes(NumericWords(Split(line, ',')))
    ensures r.Failure? <==> !("\"" <= line) && (line == [] || !IsAsciiDigit(line[0]))
    ensures r.Failure? ==> r.error == Unrecognized(line, lineNum)
  {
    if "\"" <= line then Success(LineContent.Data(WordsToBytes(StringWords(line))))
    else if line != [] && IsAsciiDigit(line[0]) then Success(LineContent.Data(WordsToBytes(NumericWords(Split(line, ',')))))
    else Failure(Unrecognized(line, lineNum))
  }

  /**
   * `parsed_data` as the source runs it: the string bytes go through
   * ReplaceControlAscii, which needs them non-empty, and the words are split
   * into bytes by a loop. `line.chars().nth(0).unwrap()` needs a non-empty line.
   */
  method ParsedData(line: string, lineNum: nat) returns (r: Result<LineContent, LineError>)
    requires line != []
    requires "\"" <= line ==> TrimMatches(line, '"') != []
    ensures r == DataLine(line, lineNum)
  {
    var data: seq<U16>;
    if "\"" <= line {
      var charArr := Utf8(TrimMatches(line, '"'));
      charArr := ReplaceControlAscii(charArr);
      charArr := charArr + [0];
      data := BytesAsWords(charArr);
    } else if IsAsciiDigit(line[0]) {
      data := NumericWords(Split(line, ','));
    } else {
      return Failure(Unrecognized(line, lineNum));
    }
    var newData := PushWords(data);
    return Success(LineContent.Data(newData));
  }

  /** The loop at the end of `parsed_data`: each word is pushed as its msb, then its lsb. */
  method PushWords(data: seq<U16>) returns (newData: seq<U8>)
    ensures newData == WordsToBytes(data)
  {
    newData := [];
    for i := 0 to |data|
      invariant newData == WordsToBytes(data[..i])
    {
      assert data[..i + 1][..i] == data[..i];
      newData := newData + [data[i] / 0x100];
      newData := newData + [data[i] % 0x100];
    }
    assert data[..|data|] == data;
  }

  /**
   * The line `""` reaches ReplaceControlAscii with no bytes at all, so
   * `parse_line` panics on it, while DataLine gives the terminating word.
   */
  lemma EmptyStringData(lineNum: nat)
    ensures TrimMatches("\"\"", '"') == [] && Utf8(TrimMatches("\"\"", '"')) == []
    ensures !ParseLineOk("\"\"")
    ensures DataLine("\"\"", lineNum) == Success(LineContent.Data([0, 0]))
  {
    EmptyStringPanics();
    EmptyStringTrimmed();
    EmptyStringDataLine(lineNum);
  }

  lemma EmptyStringDataLine(lineNum: nat)
    ensures DataLine("\"\"", lineNum) == Success(LineContent.Data([0, 0]))
  {
    EmptyStringWords();
    ZeroWordBytes();
    assert "\"" <= "\"\"";
  }

  lemma ZeroWordBytes()
    ensures WordsToBytes([0]) == [0, 0]
  {
    var zero: seq<U16> := [0];
    assert zero[..0] == [];
  }

  lemma EmptyStringPanics()
    ensures !ParseLineOk("\"\"")
  {
    var t := "\"\"";
    assert t[0] == '"' && t[|t| - 1] == '"';
    TrimNoop(t);
    assert Trim(t) == t && "\"" <= t;
    EmptyStringTrimmed();
  }

  lemma EmptyStringTrimmed()
    ensures TrimMatches("\"\"", '"') == [] && Utf8(TrimMatches("\"\"", '"')) == []
  {
    TrimMatchesAll("\"\"", '"');
  }

  lemma EmptyStringWords()
    ensures StringWords("\"\"") == [0]
  {
    EmptyStringTrimmed();
    var nul: seq<U8> := [0];
    var zero: seq<U16> := [0];
    assert Unescape([]) + nul == nul;
    assert BytesAsWords(nul) == zero;
  }

  // ------------------------------------------------------------------
  // Lines
  // ------------------------------------------------------------------

  predicate IsComment(t: string) {
    t == [] || "//" <= t
  }

  predicate StartsData(t: string) {
    t != [] && (t[0] == '"' || IsAsciiDigit(t[0]))
  }

  /** ParseLine takes this trimmed line to ParsedLabel. */
  predicate IsLabelLine(t: string) {
    !IsComment(t) && !(".section" <= t) && !StartsData(t) && ':' in t
  }

  /**
   * The inputs on which `parse_line` panics: a label line whose last
   * character is not one byte, and a string line with nothing between its
   * quotes, which hands `replace_control_ascii` an empty vector.
   */
  predicate ParseLineOk(line: string) {
    var t := Trim(line);
    (IsLabelLine(t) ==> LabelSliceOk(t)) && ("\"" <= t ==> TrimMatches(t, '"') != [])
  }

  /**
   * `parse_line`: on the trimmed line, in this order, a comment or nothing,
   * a section directive, data (a leading `"` or digit), a label (a colon
   * anywhere), and otherwise an instruction.
   */
  function ParseLine(line: string, lineNum: nat): Result<LineContent, LineError>
    requires ParseLineOk(line)
  {
    var t := Trim(line);
    if IsComment(t) then Success(NonRelevant)
    else if ".section" <= t then ParsedSection(t, lineNum)
    else if StartsData(t) then DataLine(t, lineNum)
    else if ':' in t then ParsedLabel(t, lineNum)
    else ParsedInstruction(t, lineNum)
  }

  /**
   * The kind of line `parse_line` reports: NonRelevant exactly for a comment
   * or nothing, and each other kind only for the lines its test admits.
   */
  lemma ParseLineKinds(line: string, lineNum: nat)
    requires ParseLineOk(line)
    ensures var r := ParseLine(line, lineNum);
            && (r == Success(NonRelevant) <==> IsComment(Trim(line)))
            && (!IsComment(Trim(line)) && ".section" <= Trim(line) ==> r == ParsedSection(Trim(line), lineNum))
            && (r.Success? && r.value.SectionLine? ==> ".section" <= Trim(line))
            && (r.Success? && r.value.Data? ==> StartsData(Trim(line)) && !(".section" <= Trim(line)))
            && (r.Success? && r.value.Label? ==> IsLabelLine(Trim(line)))
            && (r.Success? && r.value.Instruction? ==> !IsComment(Trim(line)) && ':' !in Trim(line) && !StartsData(Trim(line)))
  {
  }

  /** Which parser a trimmed line is handed to: data, label or instruction. */
  lemma ParseLineDispatch(line: string, lineNum: nat)
    requires ParseLineOk(line)
    ensures !IsComment(Trim(line)) && !(".section" <= Trim(line)) && StartsData(Trim(line)) ==>
              ParseLine(line, lineNum) == DataLine(Trim(line), lineNum)
    ensures IsLabelLine(Trim(line)) ==> ParseLine(line, lineNum) == ParsedLabel(Trim(line), lineNum)
    ensures !IsComment(Trim(line)) && !(".section" <= Trim(line)) && !StartsData(Trim(line)) && ':' !in Trim(line) ==>
              ParseLine(line, lineNum) == ParsedInstruction(Trim(line), lineNum)
  {
  }

  /** `p` is a prefix of `s + [c] + t` exactly when it is a prefix of s, for a c that p does not contain. */
  lemma PrefixBeforeSeparator(p: string, s: string, c: char, t: string)
    requires c !in p
    ensures p <= s + [c] + t <==> p <= s
  {
    var u := s + [c] + t;
    if |p| <= |s| {
      assert u[..|p|] == s[..|p|];
    } else if |p| <= |u| {
      assert p[|s|] != u[|s|];
    }
  }

  /** What a well-formed label needs: no colon, space or tab, and no start that another kind of line claims. */
  predicate IsLabelName(name: string) {
    && (name == [] || !IsWhitespace(name[0]))
    && ':' !in name && ' ' !in name && '\t' !in name
    && !("//" <= name) && !(".section" <= name)
    && (name != [] ==> name[0] != '"' && !IsAsciiDigit(name[0]))
  }

  lemma LabelLineKind(name: string)
    requires IsLabelName(name)
    ensures Trim(name + ":") == name + ":" && IsLabelLine(name + ":")
  {
    LabelLineTrim(name);
    LabelLineClass(name);
  }

  lemma LabelLineTrim(name: string)
    requires IsLabelName(name)
    ensures Trim(name + ":") == name + ":"
  {
    var line := name + ":";
    assert line[0] == if name == [] then ':' else name[0];
    assert line[|line| - 1] == ':';
    TrimNoop(line);
  }

  lemma LabelLineClass(name: string)
    requires IsLabelName(name)
    ensures var line := name + ":";
            !IsComment(line) && !(".section" <= line) && !StartsData(line) && ':' in line
  {
    var line := name + ":";
    assert line == name + [':'] + [];
    assert line[|line| - 1] == ':';
    assert line[0] == if name == [] then ':' else name[0];
    PrefixBeforeSeparator("//", name, ':', []);
    PrefixBeforeSeparator(".section", name, ':', []);
  }

  lemma LabelLineParsed(name: string, lineNum: nat)
    requires ':' !in name && ' ' !in name && '\t' !in name
    ensures LabelSliceOk(name + ":")
    ensures ParsedLabel(name + ":", lineNum) == Success(Label(name))
  {
    var line := name + ":";
    assert multiset(line)[':'] == 1 by {
      assert multiset(line) == multiset(name) + multiset{':'};
    }
    assert line[..|line| - 1] == name;
  }

  /** A well-formed label line `name:` is the label `name`. */
  lemma LabelLine(name: string, lineNum: nat)
    requires IsLabelName(name)
    ensures ParseLineOk(name + ":")
    ensures ParseLine(name + ":", lineNum) == Success(Label(name))
  {
    var line := name + ":";
    LabelLineKind(name);
    LabelLineParsed(name, lineNum);
    assert LabelSliceOk(Trim(line));
    ParseLineDispatch(line, lineNum);
  }

  /** No whitespace, no colon. */
  predicate IsToken(w: string) {
    w != [] && ':' !in w && forall i :: 0 <= i < |w| ==> !IsWhitespace(w[i])
  }

  /** Every character of a join comes from a piece or is the separator. */
  lemma JoinChars(ps: seq<string>, c: char, i: nat)
    requires |ps| >= 1 && i < |Join(ps, c)|
    ensures Join(ps, c)[i] == c || exists k, j :: 0 <= k < |ps| && 0 <= j < |ps[k]| && Join(ps, c)[i] == ps[k][j]
    decreases |ps|
  {
    if |ps| > 1 && i > |ps[0]| {
      JoinChars(ps[1..], c, i - |ps[0]| - 1);
      var x := Join(ps, c)[i];
      if x != c {
        var k, j :| 0 <= k < |ps[1..]| && 0 <= j < |ps[1..][k]| && x == ps[1..][k][j];
        assert x == ps[k + 1][j];
      }
    } else if i < |ps[0]| {
      assert Join(ps, c)[i] == ps[0][i];
    }
  }

  /** The last character of a join is the last character of the last piece. */
  lemma JoinLast(ps: seq<string>, c: char)
    requires |ps| >= 1 && ps[|ps| - 1] != []
    ensures Join(ps, c) != [] && Join(ps, c)[|Join(ps, c)| - 1] == ps[|ps| - 1][|ps[|ps| - 1]| - 1]
    decreases |ps|
  {
    if |ps| > 1 {
      JoinLast(ps[1..], c);
    }
  }

  /** The first word of an instruction line: a token that no other kind of line claims. */
  predicate IsMnemonicToken(m: string) {
    IsToken(m) && IsAscii(m) && !("//" <= m) && !(".section" <= m) && m[0] != '"' && !IsAsciiDigit(m[0])
  }

  /** A character in none of the pieces and not the separator is not in their join. */
  lemma {:induction false} JoinWithout(ps: seq<string>, c: char, x: char)
    requires |ps| >= 1 && x != c
    requires forall k :: 0 <= k < |ps| ==> x !in ps[k]
    ensures x !in Join(ps, c)
    decreases |ps|
  {
    if |ps| > 1 {
      JoinWithout(ps[1..], c, x);
    }
  }

  lemma InstructionLineKind(m: string, args: seq<string>)
    requires IsMnemonicToken(m)
    requires forall k :: 0 <= k < |args| ==> IsToken(args[k])
    ensures Trim(Join([m] + args, ' ')) == Join([m] + args, ' ')
    ensures var t := Join([m] + args, ' ');
            !IsComment(t) && !(".section" <= t) && !StartsData(t) && ':' !in t
  {
    InstructionLineTrimmed(m, args);
    InstructionLineNoColon(m, args);
    JoinPrefixes(m, args);
  }

  lemma InstructionLineTrimmed(m: string, args: seq<string>)
    requires IsMnemonicToken(m)
    requires forall k :: 0 <= k < |args| ==> IsToken(args[k])
    ensures Join([m] + args, ' ') != [] && Trim(Join([m] + args, ' ')) == Join([m] + args, ' ')
  {
    TokensJoined(m, args);
    JoinTrim([m] + args, ' ');
    JoinEnds([m] + args, ' ');
  }

  lemma InstructionLineNoColon(m: string, args: seq<string>)
    requires IsMnemonicToken(m)
    requires forall k :: 0 <= k < |args| ==> IsToken(args[k])
    ensures ':' !in Join([m] + args, ' ')
  {
    TokensJoined(m, args);
    JoinWithout([m] + args, ' ', ':');
  }

  /** The mnemonic and the arguments, as one list of tokens. */
  lemma TokensJoined(m: string, args: seq<string>)
    requires IsToken(m) && forall k :: 0 <= k < |args| ==> IsToken(args[k])
    ensures forall k :: 0 <= k < |[m] + args| ==> IsToken(([m] + args)[k]) && ':' !in ([m] + args)[k]
  {
    var ps := [m] + args;
    forall k | 0 <= k < |ps|
      ensures IsToken(ps[k]) && ':' !in ps[k]
    {
      if k > 0 {
        assert ps[k] == args[k - 1];
      }
    }
  }

  lemma JoinTrim(ps: seq<string>, c: char)
    requires |ps| >= 1 && forall k :: 0 <= k < |ps| ==> IsToken(ps[k])
    ensures Trim(Join(ps, c)) == Join(ps, c)
  {
    JoinEnds(ps, c);
    TrimNoop(Join(ps, c));
  }

  lemma JoinEnds(ps: seq<string>, c: char)
    requires |ps| >= 1 && forall k :: 0 <= k < |ps| ==> IsToken(ps[k])
    ensures Join(ps, c) != [] && ps[0] != [] && Join(ps, c)[0] == ps[0][0]
    ensures !IsWhitespace(Join(ps, c)[0]) && !IsWhitespace(Join(ps, c)[|Join(ps, c)| - 1])
  {
    JoinFirst(ps, c);
    JoinLast(ps, c);
  }

  lemma JoinPrefixes(m: string, args: seq<string>)
    requires IsMnemonicToken(m)
    ensures var t := Join([m] + args, ' ');
            !("//" <= t) && !(".section" <= t) && !StartsData(t)
  {
    var ps := [m] + args;
    JoinFirst(ps, ' ');
    assert Join(ps, ' ')[0] == m[0];
    if |ps| > 1 {
      assert ' ' !in "//" && ' ' !in ".section";
      PrefixBeforeSeparator("//", m, ' ', Join(ps[1..], ' '));
      PrefixBeforeSeparator(".section", m, ' ', Join(ps[1..], ' '));
    }
  }

  lemma InstructionLineParsed(m: string, args: seq<string>, lineNum: nat)
    requires IsToken(m) && IsAscii(m)
    requires forall k :: 0 <= k < |args| ==> IsToken(args[k])
    ensures ParsedInstruction(Join([m] + args, ' '), lineNum) == Success(Instruction(ToLowerAscii(m), args))
  {
    var ps := [m] + args;
    assert forall k :: 0 <= k < |ps| ==> IsToken(ps[k]);
    assert forall k :: 0 <= k < |ps| ==> ' ' !in ps[k];
    SplitJoin(ps, ' ');
    assert ps[1..] == args;
  }

  /**
   * An instruction line of tokens separated by single spaces is that mnemonic,
   * lower-cased, and those arguments.
   */
  lemma InstructionLine(m: string, args: seq<string>, lineNum: nat)
    requires IsMnemonicToken(m)
    requires forall k :: 0 <= k < |args| ==> IsToken(args[k])
    ensures ParseLineOk(Join([m] + args, ' '))
    ensures ParseLine(Join([m] + args, ' '), lineNum) == Success(Instruction(ToLowerAscii(m), args))
  {
    var t := Join([m] + args, ' ');
    InstructionLineKind(m, args);
    assert !IsLabelLine(Trim(t));
    ParseLineDispatch(t, lineNum);
    InstructionLineParsed(m, args, lineNum);
  }

  /** The printed form of a number, as the items of a numeric data line. */
  function Printed(vs: seq<int>): (items: seq<string>)
    ensures |items| == |vs| && forall k :: 0 <= k < |vs| ==> items[k] == IntToString(vs[k])
  {
    seq(|vs|, k requires 0 <= k < |vs| => IntToString(vs[k]))
  }

  /** A printed integer is a sign and digits. */
  lemma PrintedChars(v: int, i: nat)
    requires i < |IntToString(v)|
    ensures IntToString(v)[i] == '-' || IsAsciiDigit(IntToString(v)[i])
    ensures i > 0 ==> IsAsciiDigit(IntToString(v)[i])
    ensures v >= 0 ==> IsAsciiDigit(IntToString(v)[i])
  {
    if v < 0 {
      assert IntToString(v) == "-" + NatToString(-v);
      if i > 0 {
        assert IntToString(v)[i] == NatToString(-v)[i - 1];
      }
    }
  }

  /** The `i16` words of a list of values. */
  function Twos(vs: seq<int>): (ws: seq<U16>)
    requires forall k :: 0 <= k < |vs| ==> -0x8000 <= vs[k] <= 0x7FFF
    ensures |ws| == |vs| && forall k :: 0 <= k < |vs| ==> ToSigned(ws[k]) == vs[k]
  {
    seq(|vs|, k requires 0 <= k < |vs| => ToUnsigned(vs[k] as I16))
  }

  lemma NumericLineKind(vs: seq<int>)
    requires |vs| >= 1 && 0 <= vs[0]
    ensures var t := Join(Printed(vs), ',');
            Trim(t) == t && !IsComment(t) && !(".section" <= t) && StartsData(t) && !("\"" <= t)
  {
    var line := Join(Printed(vs), ',');
    NumericLineStart(vs);
    NumericLineEnd(vs);
    TrimNoop(line);
    DifferentFirst("//", line);
    DifferentFirst(".section", line);
  }

  /** The joined line ends with the last value's last digit. */
  lemma NumericLineEnd(vs: seq<int>)
    requires |vs| >= 1
    ensures Join(Printed(vs), ',') != [] && IsAsciiDigit(Join(Printed(vs), ',')[|Join(Printed(vs), ',')| - 1])
  {
    var items := Printed(vs);
    JoinLast(items, ',');
    var l := |items[|vs| - 1]| - 1;
    PrintedChars(vs[|vs| - 1], l);
  }

  lemma NumericLineParsed(vs: seq<int>, lineNum: nat)
    requires |vs| >= 1 && 0 <= vs[0]
    requires forall k :: 0 <= k < |vs| ==> -0x8000 <= vs[k] <= 0x7FFF
    ensures DataLine(Join(Printed(vs), ','), lineNum) == Success(LineContent.Data(WordsToBytes(Twos(vs))))
  {
    var items := Printed(vs);
    var line := Join(items, ',');
    NumericLineStart(vs);
    PrintedNoComma(vs);
    SplitJoin(items, ',');
    PrintedValues(vs);
    assert NumericWords(items) == Twos(vs);
  }

  /** The joined line starts with the first value's leading digit. */
  lemma NumericLineStart(vs: seq<int>)
    requires |vs| >= 1 && 0 <= vs[0]
    ensures Join(Printed(vs), ',') != [] && IsAsciiDigit(Join(Printed(vs), ',')[0])
    ensures !("\"" <= Join(Printed(vs), ','))
  {
    var items := Printed(vs);
    JoinFirst(items, ',');
    PrintedChars(vs[0], 0);
    assert Join(items, ',')[0] == items[0][0];
  }

  /** No printed value holds a comma. */
  lemma PrintedNoComma(vs: seq<int>)
    ensures forall k :: 0 <= k < |Printed(vs)| ==> ',' !in Printed(vs)[k]
  {
    var items := Printed(vs);
    forall k | 0 <= k < |items|
      ensures ',' !in items[k]
    {
      forall j | 0 <= j < |items[k]|
        ensures items[k][j] != ','
      {
        PrintedChars(vs[k], j);
      }
    }
  }

  /** Each printed `i16` value parses back to itself. */
  lemma PrintedValues(vs: seq<int>)
    requires forall k :: 0 <= k < |vs| ==> -0x8000 <= vs[k] <= 0x7FFF
    ensures forall k :: 0 <= k < |vs| ==> ItemValue(Printed(vs)[k]) == vs[k]
  {
    forall k | 0 <= k < |vs|
      ensures ItemValue(Printed(vs)[k]) == vs[k]
    {
      PrintedValue(vs[k]);
    }
  }

  lemma PrintedValue(v: int)
    requires -0x8000 <= v <= 0x7FFF
    ensures ItemValue(IntToString(v)) == v
  {
    var s := IntToString(v);
    PrintedChars(v, 0);
    PrintedChars(v, |s| - 1);
    TrimNoop(s);
    ParsePrinted(v, -0x8000, 0x7FFF);
  }

  /**
   * A comma-separated list of `i16` values, starting with a non-negative one,
   * is a data line whose bytes are the values' two's-complement words, msb first.
   */
  lemma NumericDataLine(vs: seq<int>, lineNum: nat)
    requires |vs| >= 1 && 0 <= vs[0]
    requires forall k :: 0 <= k < |vs| ==> -0x8000 <= vs[k] <= 0x7FFF
    ensures ParseLineOk(Join(Printed(vs), ','))
    ensures ParseLine(Join(Printed(vs), ','), lineNum) == Success(LineContent.Data(WordsToBytes(Twos(vs))))
  {
    var t := Join(Printed(vs), ',');
    NumericLineKind(vs);
    assert !IsLabelLine(Trim(t));
    ParseLineDispatch(t, lineNum);
    NumericLineParsed(vs, lineNum);
  }

  /** The character codes of a string followed by a 0, as words. */
  function Terminated(body: string): (ws: seq<U16>)
    requires IsAscii(body)
  {
    seq(|body| + 1, k requires 0 <= k <= |body| => if k < |body| then body[k] as int else 0)
  }

  lemma StringLineParsed(body: string, lineNum: nat)
    requires IsAscii(body) && '\\' !in body
    requires body == [] || (body[0] != '"' && body[|body| - 1] != '"')
    ensures DataLine("\"" + body + "\"", lineNum) == Success(LineContent.Data(WordsToBytes(Terminated(body))))
  {
    var line := "\"" + body + "\"";
    assert "\"" <= line;
    TrimMatchesQuoted(body, '"');
    assert TrimMatches(line, '"') == body;
    AsciiWords(body);
  }

  /** The words of plain ASCII text: its character codes and the 0. */
  lemma AsciiWords(body: string)
    requires IsAscii(body) && '\\' !in body
    ensures BytesAsWords(Unescape(Utf8(body)) + [0]) == Terminated(body)
  {
    Utf8Ascii(body);
    var bs := Utf8(body);
    AsciiNoBackslash(body);
    UnescapePlain(bs);
    var ws := BytesAsWords(bs + [0]);
    assert |ws| == |body| + 1;
    forall k | 0 <= k <= |body|
      ensures ws[k] == Terminated(body)[k]
    {
      if k < |body| {
        assert ws[k] == bs[k];
      }
    }
  }

  /** The bytes of ASCII text without a backslash hold no backslash byte. */
  lemma AsciiNoBackslash(body: string)
    requires IsAscii(body) && '\\' !in body
    ensures BACKSLASH !in Utf8(body)
  {
    Utf8Ascii(body);
    var bs := Utf8(body);
    forall i | 0 <= i < |bs|
      ensures bs[i] != BACKSLASH
    {
      assert bs[i] == body[i] as int;
    }
  }

  /**
   * A quoted ASCII string without backslashes and without quotes at its ends
   * is a data line holding one word per character and a terminating 0.
   */
  lemma StringDataLine(body: string, lineNum: nat)
    requires IsAscii(body) && '\\' !in body
    requires body != [] && body[0] != '"' && body[|body| - 1] != '"'
    ensures ParseLineOk("\"" + body + "\"")
    ensures ParseLine("\"" + body + "\"", lineNum) == Success(LineContent.Data(WordsToBytes(Terminated(body))))
  {
    var t := "\"" + body + "\"";
    StringLineKind(body);
    TrimMatchesQuoted(body, '"');
    assert !IsLabelLine(Trim(t));
    ParseLineDispatch(t, lineNum);
    StringLineParsed(body, lineNum);
  }

  lemma StringLineKind(body: string)
    ensures var t := "\"" + body + "\"";
            Trim(t) == t && StartsData(t) && !(".section" <= t) && !IsComment(t)
  {
    StringLineTrim(body);
    StringLinePrefixes(body);
  }

  lemma StringLineTrim(body: string)
    ensures Trim("\"" + body + "\"") == "\"" + body + "\""
  {
    var line := "\"" + body + "\"";
    assert line[0] == '"' && line[|line| - 1] == '"';
    TrimNoop(line);
  }

  lemma StringLinePrefixes(body: string)
    ensures var t := "\"" + body + "\"";
            StartsData(t) && !(".section" <= t) && !IsComment(t)
  {
    var line := "\"" + body + "\"";
    DifferentFirst("//", line);
    DifferentFirst(".section", line);
  }

  /** Strings that start differently are not prefixes of each other. */
  lemma DifferentFirst(p: string, s: string)
    requires p != [] && s != [] && p[0] != s[0]
    ensures !(p <= s)
  {
    if |p| <= |s| {
      assert s[..|p|][0] == s[0];
    }
  }

  // ------------------------------------------------------------------
  // trim_comments
  // ------------------------------------------------------------------

  /** The arguments before the first one that starts with `//`. */
  function BeforeComment(args: seq<string>): (r: seq<string>)
    ensures |r| <= |args| && r == args[..|r|]
    ensures forall k :: 0 <= k < |r| ==> !("//" <= r[k])
    ensures |r| < |args| ==> "//" <= args[|r|]
  {
    if args == [] then []
    else if "//" <= args[0] then []
    else [args[0]] + BeforeComment(args[1..])
  }

  /**
   * Filtering distributes over concatenation, so the kept arguments keep
   * their order and each one is kept once for each time it occurs.
   */
  lemma {:induction false} NonBlankAppend(a: seq<string>, b: seq<string>)
    ensures NonBlank(a + b) == NonBlank(a) + NonBlank(b)
    decreases |b|
  {
    if b == [] {
      assert a + b == a;
    } else {
      var front, last := b[..|b| - 1], b[|b| - 1];
      NonBlankAppend(a, front);
      var ab := a + b;
      assert ab[..|ab| - 1] == a + front && ab[|ab| - 1] == last;
    }
  }

  /** The arguments that are not blank, in their order. */
  function NonBlank(args: seq<string>): seq<string>
    decreases |args|
  {
    if args == [] then []
    else
      var front := NonBlank(args[..|args| - 1]);
      var last := args[|args| - 1];
      if IsBlank(last) then front else front + [last]
  }

  /** Every argument NonBlank keeps is a non-blank argument, and every non-blank argument is kept. */
  lemma {:induction false} NonBlankKeeps(args: seq<string>)
    ensures forall k :: 0 <= k < |NonBlank(args)| ==> !IsBlank(NonBlank(args)[k]) && NonBlank(args)[k] in args
    ensures forall k :: 0 <= k < |args| && !IsBlank(args[k]) ==> args[k] in NonBlank(args)
    decreases |args|
  {
    if args != [] {
      var front, last := args[..|args| - 1], args[|args| - 1];
      NonBlankKeeps(front);
      assert args == front + [last];
      var r := NonBlank(args);
      assert r == if IsBlank(last) then NonBlank(front) else NonBlank(front) + [last];
      var fr := NonBlank(front);
      forall k | 0 <= k < |r|
        ensures !IsBlank(r[k]) && r[k] in args
      {
        if k < |fr| {
          assert r[k] == fr[k];
          var j :| 0 <= j < |front| && front[j] == fr[k];
          assert args[j] == front[j];
        } else {
          assert r[k] == args[|args| - 1];
        }
      }
      forall k | 0 <= k < |args| && !IsBlank(args[k])
        ensures args[k] in r
      {
        if k < |front| {
          assert args[k] == front[k];
          var j :| 0 <= j < |fr| && fr[j] == front[k];
          assert r[j] == fr[j];
        } else {
          assert r[|r| - 1] == last;
        }
      }
    }
  }

  /** Arguments that are neither blank nor comments come through unchanged. */
  lemma {:induction false} NonBlankAll(args: seq<string>)
    requires forall k :: 0 <= k < |args| ==> !IsBlank(args[k])
    ensures NonBlank(args) == args
  {
    if args != [] {
      NonBlankAll(args[..|args| - 1]);
      assert args[..|args| - 1] + [args[|args| - 1]] == args;
    }
  }

  /** Before the first comment: all of them, if none is one. */
  lemma {:induction false} BeforeCommentAt(args: seq<string>, i: nat)
    requires i <= |args|
    requires forall k :: 0 <= k < i ==> !("//" <= args[k])
    requires i == |args| || "//" <= args[i]
    ensures BeforeComment(args) == args[..i]
  {
    if args != [] && i > 0 {
      BeforeCommentAt(args[1..], i - 1);
      assert args[..i] == [args[0]] + args[1..][..i - 1];
    }
  }

  /**
   * `trim_comments`: truncates the list at the first argument that starts with
   * `//`, then drops the blank ones.
   */
  method TrimComments(args: seq<string>) returns (v: seq<string>)
    ensures v == NonBlank(BeforeComment(args))
  {
    v := args;
    for i := 0 to |v|
      invariant v == args
      invariant forall k :: 0 <= k < i ==> !("//" <= args[k])
    {
      if "//" <= v[i] {
        BeforeCommentAt(args, i);
        v := v[..i];
        break;
      }
    }
    if |v| == |args| {
      BeforeCommentAt(args, |args|);
      assert v == args[..|args|];
    }
    v := NonBlank(v);
  }

  // ------------------------------------------------------------------
  // The first pass: label addresses and section bounds
  // ------------------------------------------------------------------

  /** Every line of the file can be parsed without a panic. */
  predicate LinesOk(lines: seq<string>) {
    forall i :: 0 <= i < |lines| ==> ParseLineOk(lines[i])
  }

  /** The result of `parse_line` for every line, numbered from 0. */
  function ParseAll(lines: seq<string>): (rs: seq<Result<LineContent, LineError>>)
    requires LinesOk(lines)
    ensures |rs| == |lines|
    ensures forall i :: 0 <= i < |lines| ==> rs[i] == ParseLine(lines[i], i)
  {
    seq(|lines|, i requires 0 <= i < |lines| && ParseLineOk(lines[i]) => ParseLine(lines[i], i))
  }

  /** The words a line occupies in the image: one per instruction, half its bytes for data. */
  function LineWords(c: LineContent): nat {
    match c
    case Data(d) => |d| / 2
    case Instruction(_, _) => 1
    case _ => 0
  }

  /** The words of the lines before line k that parsed. */
  function WordsBefore(rs: seq<Result<LineContent, LineError>>, k: nat): nat
    requires k <= |rs|
  {
    if k == 0 then 0
    else WordsBefore(rs, k - 1) + (if rs[k - 1].Success? then LineWords(rs[k - 1].value) else 0)
  }

  /** The section directives before line k, with their line numbers, in order. */
  function DirectivesBefore(rs: seq<Result<LineContent, LineError>>, k: nat): seq<(Section, nat)>
    requires k <= |rs|
  {
    if k == 0 then []
    else
      var r := rs[k - 1];
      DirectivesBefore(rs, k - 1) + (if r.Success? && r.value.SectionLine? then [(r.value.section, k - 1)] else [])
  }

  /** What the first pass has built after some lines: the labels, the section bounds and the address counter. */
  datatype Pass1State = Pass1State(labels: map<string, nat>, layout: Layout, address: nat)

  const Pass1Start := Pass1State(map[], NoSections, 0)

  /** The first pass's action on one parsed line. */
  function Pass1Step(st: Pass1State, c: LineContent, idx: nat): Result<Pass1State, LineError> {
    match c
    case Label(k) =>
      if k in st.labels then Failure(LabelMultiple(idx)) else Success(st.(labels := st.labels[k := st.address]))
    case SectionLine(s) => Success(st.(layout := UpdateLayout(st.layout, s, idx)))
    case Data(d) => Success(st.(address := st.address + |d| / 2))
    case Instruction(_, _) => Success(st.(address := st.address + 1))
    case NonRelevant => Success(st)
  }

  /**
   * The first pass over the first k parsed lines: the first error, a parse
   * error or a repeated label, stops it. The address counter is the number of
   * words before line k and the bounds are those the directives give.
   */
  function Pass1Prefix(rs: seq<Result<LineContent, LineError>>, k: nat): (r: Result<Pass1State, LineError>)
    requires k <= |rs|
    ensures r.Success? ==> r.value.address == WordsBefore(rs, k)
  {
    if k == 0 then Success(Pass1Start)
    else
      match Pass1Prefix(rs, k - 1)
      case Failure(e) => Failure(e)
      case Success(st) =>
        match rs[k - 1]
        case Failure(e) => Failure(e)
        case Success(c) =>
          Pass1Step(st, c, k - 1)
  }

  /** The section bounds after k lines are those the directives before line k give. */
  lemma {:induction false} Pass1Layout(rs: seq<Result<LineContent, LineError>>, k: nat)
    requires k <= |rs| && Pass1Prefix(rs, k).Success?
    ensures Pass1Prefix(rs, k).value.layout == Directives(NoSections, DirectivesBefore(rs, k))
  {
    if k > 0 {
      Pass1Layout(rs, k - 1);
      assert rs[k - 1].Success?;
      var c := rs[k - 1].value;
      var st := Pass1Prefix(rs, k - 1).value;
      assert Pass1Prefix(rs, k) == Pass1Step(st, c, k - 1);
      if c.SectionLine? {
        DirectivesAppend(NoSections, DirectivesBefore(rs, k - 1), c.section, k - 1);
      } else {
        assert DirectivesBefore(rs, k) == DirectivesBefore(rs, k - 1);
        assert Pass1Prefix(rs, k).value.layout == st.layout;
      }
    }
  }

  /** The first pass over parsed lines, then the check that closes the open section at the line count. */
  function Pass1Of(rs: seq<Result<LineContent, LineError>>): Result<(map<string, nat>, Layout), LineError> {
    match Pass1Prefix(rs, |rs|)
    case Failure(e) => Failure(e)
    case Success(st) =>
      match CheckLayout(st.layout, |rs|)
      case Failure(e) => Failure(e)
      case Success(l) => Success((st.labels, l))
  }

  /** `parse_symbols` over a file. */
  function Pass1(lines: seq<string>): Result<(map<string, nat>, Layout), LineError>
    requires LinesOk(lines)
  {
    Pass1Of(ParseAll(lines))
  }

  /** Once the first pass has failed, it stays failed with the same error. */
  lemma {:induction false} Pass1Stops(rs: seq<Result<LineContent, LineError>>, i: nat, k: nat)
    requires i <= k <= |rs| && Pass1Prefix(rs, i).Failure?
    ensures Pass1Prefix(rs, k) == Pass1Prefix(rs, i)
    decreases k
  {
    if k > i {
      Pass1Stops(rs, i, k - 1);
    }
  }

  /** Each label line before line k maps to the number of words before it. */
  lemma {:induction false} LabelAddress(rs: seq<Result<LineContent, LineError>>, k: nat, j: nat, name: string)
    requires k <= |rs| && Pass1Prefix(rs, k).Success?
    requires j < k && rs[j] == Success(Label(name))
    ensures name in Pass1Prefix(rs, k).value.labels
    ensures Pass1Prefix(rs, k).value.labels[name] == WordsBefore(rs, j)
    decreases k
  {
    if j < k - 1 {
      LabelAddress(rs, k - 1, j, name);
    }
  }

  /** Every label of the table comes from a label line before line k. */
  lemma {:induction false} LabelDeclared(rs: seq<Result<LineContent, LineError>>, k: nat, name: string)
    requires k <= |rs| && Pass1Prefix(rs, k).Success?
    requires name in Pass1Prefix(rs, k).value.labels
    ensures exists j :: 0 <= j < k && rs[j] == Success(Label(name))
    decreases k
  {
    if k > 0 && rs[k - 1] != Success(Label(name)) {
      LabelDeclared(rs, k - 1, name);
    }
  }

  /** The same label on two lines stops the first pass. */
  lemma RepeatedLabel(rs: seq<Result<LineContent, LineError>>, k: nat, j1: nat, j2: nat, name: string)
    requires k <= |rs| && j1 < j2 < k
    requires rs[j1] == Success(Label(name)) && rs[j2] == Success(Label(name))
    ensures Pass1Prefix(rs, k).Failure?
  {
    var at := Pass1Prefix(rs, j2);
    if at.Failure? {
      Pass1Stops(rs, j2, k);
    } else {
      LabelAddress(rs, j2, j1, name);
      assert Pass1Prefix(rs, j2 + 1).Failure?;
      Pass1Stops(rs, j2 + 1, k);
    }
  }

  /** Line j of the parsed lines is the label `name`. */
  predicate LabelLineAt(rs: seq<Result<LineContent, LineError>>, j: nat, name: string) {
    j < |rs| && rs[j] == Success(Label(name))
  }

  /**
   * `parse_symbols` on parsed lines: each label maps to the number of
   * instruction lines and data words before it, every label has a label
   * line, and the bounds are those of the directives, closed at the line
   * count.
   */
  lemma LabelAddresses(rs: seq<Result<LineContent, LineError>>)
    requires Pass1Of(rs).Success?
    ensures forall j: nat, name :: LabelLineAt(rs, j, name) ==>
              name in Pass1Of(rs).value.0 && Pass1Of(rs).value.0[name] == WordsBefore(rs, j)
    ensures forall name :: name in Pass1Of(rs).value.0 ==> exists j: nat :: LabelLineAt(rs, j, name)
    ensures Success(Pass1Of(rs).value.1) == CheckLayout(Directives(NoSections, DirectivesBefore(rs, |rs|)), |rs|)
  {
    var st := Pass1OfParts(rs);
    LabelsPlaced(rs, st.labels);
    LabelsDeclared(rs, st.labels);
    Pass1Layout(rs, |rs|);
  }

  /** A successful first pass: the labels and the checked layout of the last prefix. */
  lemma Pass1OfParts(rs: seq<Result<LineContent, LineError>>) returns (st: Pass1State)
    requires Pass1Of(rs).Success?
    ensures Pass1Prefix(rs, |rs|) == Success(st)
    ensures Pass1Of(rs).value.0 == st.labels
    ensures Success(Pass1Of(rs).value.1) == CheckLayout(st.layout, |rs|)
  {
    st := Pass1Prefix(rs, |rs|).value;
  }

  lemma LabelsPlaced(rs: seq<Result<LineContent, LineError>>, labels: map<string, nat>)
    requires Pass1Prefix(rs, |rs|).Success? && Pass1Prefix(rs, |rs|).value.labels == labels
    ensures forall j: nat, name :: LabelLineAt(rs, j, name) ==> name in labels && labels[name] == WordsBefore(rs, j)
  {
    forall j: nat, name | LabelLineAt(rs, j, name)
      ensures name in labels && labels[name] == WordsBefore(rs, j)
    {
      LabelAddress(rs, |rs|, j, name);
    }
  }

  lemma LabelsDeclared(rs: seq<Result<LineContent, LineError>>, labels: map<string, nat>)
    requires Pass1Prefix(rs, |rs|).Success? && Pass1Prefix(rs, |rs|).value.labels == labels
    ensures forall name :: name in labels ==> exists j: nat :: LabelLineAt(rs, j, name)
  {
    forall name | name in labels
      ensures exists j: nat :: LabelLineAt(rs, j, name)
    {
      LabelDeclared(rs, |rs|, name);
      var j :| 0 <= j < |rs| && rs[j] == Success(Label(name));
      assert LabelLineAt(rs, j, name);
    }
  }

  /** A repeated label makes `parse_symbols` fail. */
  lemma RepeatedLabelFails(rs: seq<Result<LineContent, LineError>>, j1: nat, j2: nat, name: string)
    requires j1 < j2 < |rs|
    requires rs[j1] == Success(Label(name)) && rs[j2] == Success(Label(name))
    ensures Pass1Of(rs).Failure?
  {
    RepeatedLabel(rs, |rs|, j1, j2, name);
  }

  /** A successful first pass that yields both ranges yields adjacent ones. */
  lemma Pass1SectionsAdjacent(rs: seq<Result<LineContent, LineError>>)
    requires Pass1Of(rs).Success?
    requires RangeOf(Pass1Of(rs).value.1.code).Some? && RangeOf(Pass1Of(rs).value.1.data).Some?
    ensures var l := Pass1Of(rs).value.1;
            l.code.end == l.data.start || l.data.end == l.code.start
  {
    Pass1Layout(rs, |rs|);
    SectionsAdjacent(DirectivesBefore(rs, |rs|), |rs|);
  }

  /**
   * The `match` of `parse_symbols` on one parsed line: a label is inserted at
   * the current address (one already there is LabelMultiple), a directive
   * updates the section bounds, data adds half its byte count to the address
   * and an instruction adds one. Returns the new address.
   */
  method RecordLine(symbols: Symbols, address: nat, c: LineContent, lineIdx: nat) returns (r: Result<nat, LineError>)
    modifies symbols
    ensures var next := Pass1Step(Pass1State(old(symbols.labels), old(symbols.Sections()), address), c, lineIdx);
            && (r.Success? <==> next.Success?)
            && (r.Success? ==> next.value == Pass1State(symbols.labels, symbols.Sections(), r.value))
            && (r.Failure? ==> r.error == next.error)
  {
    match c {
      case Label(k) =>
        var existed := k in symbols.labels;
        symbols.labels := symbols.labels[k := address];
        if existed {
          return Failure(LabelMultiple(lineIdx));
        }
        return Success(address);
      case SectionLine(s) =>
        symbols.UpdateSections(s, lineIdx);
        return Success(address);
      case Data(d) =>
        return Success(address + |d| / 2);
      case Instruction(_, _) =>
        return Success(address + 1);
      case NonRelevant =>
        return Success(address);
    }
  }

  /** `parse_line` on line i of the file. */
  method ParseLineAt(lines: seq<string>, i: nat) returns (r: Result<LineContent, LineError>)
    requires LinesOk(lines) && i < |lines|
    ensures r == ParseAll(lines)[i]
  {
    r := ParseLine(lines[i], i);
  }

  /** One turn of the loop of `parse_symbols`: line i is parsed and recorded, as the first pass does. */
  method RecordLineAt(lines: seq<string>, i: nat, symbols: Symbols, address: nat) returns (r: Result<nat, LineError>)
    requires LinesOk(lines) && i < |lines|
    requires Pass1Prefix(ParseAll(lines), i) == Success(Pass1State(symbols.labels, symbols.Sections(), address))
    modifies symbols
    ensures Pass1Prefix(ParseAll(lines), i + 1) ==
            if r.Success? then Success(Pass1State(symbols.labels, symbols.Sections(), r.value)) else Failure(r.error)
  {
    var parsed := ParseLineAt(lines, i);
    if parsed.Failure? {
      return Failure(parsed.error);
    }
    r := RecordLine(symbols, address, parsed.value, i);
  }

  /**
   * The loop of `parse_symbols`: the lines are parsed and recorded in order
   * into an empty table, and the first error stops the pass.
   */
  method RecordLines(lines: seq<string>, symbols: Symbols) returns (r: Result<(), LineError>)
    requires LinesOk(lines)
    requires symbols.labels == map[] && symbols.Sections() == NoSections
    modifies symbols
    ensures var p := Pass1Prefix(ParseAll(lines), |lines|);
            && (r.Success? <==> p.Success?)
            && (r.Success? ==> p.value.labels == symbols.labels && p.value.layout == symbols.Sections())
            && (r.Failure? ==> r.error == p.error)
  {
    ghost var rs := ParseAll(lines);
    var address: nat := 0;
    var lineIdx: nat := 0;
    while lineIdx < |lines|
      invariant lineIdx <= |lines|
      invariant Pass1Prefix(rs, lineIdx) == Success(Pass1State(symbols.labels, symbols.Sections(), address))
    {
      var recorded := RecordLineAt(lines, lineIdx, symbols, address);
      if recorded.Failure? {
        Pass1Stops(rs, lineIdx + 1, |lines|);
        return Failure(recorded.error);
      }
      address := recorded.value;
      lineIdx := lineIdx + 1;
    }
    assert lineIdx == |lines| && rs == ParseAll(lines);
    ghost var p := Pass1Prefix(rs, lineIdx);
    assert p == Success(Pass1State(symbols.labels, symbols.Sections(), address));
    r := Success(());
  }

  /**
   * `parse_symbols`: the lines are recorded into a fresh table, and at the
   * end the sections are checked and the open one closed.
   */
  method ParseSymbols(lines: seq<string>) returns (r: Result<Symbols, LineError>)
    requires LinesOk(lines)
    ensures r.Success? <==> Pass1(lines).Success?
    ensures r.Success? ==> fresh(r.value) && r.value.labels == Pass1(lines).value.0 && r.value.Sections() == Pass1(lines).value.1
    ensures r.Failure? ==> r.error == Pass1(lines).error
  {
    var symbols := new Symbols();
    var recorded := RecordLines(lines, symbols);
    if recorded.Failure? {
      return Failure(recorded.error);
    }
    var valid := symbols.CheckSectionsValid(|lines|);
    if valid.Failure? {
      return Failure(valid.error);
    }
    return Success(symbols);
  }

  // ------------------------------------------------------------------
  // Second pass: assemble_program
  // ------------------------------------------------------------------

  /** Line idx lies inside the range a section's bounds give, when both bounds are known. */
  predicate InRange(b: Bounds, idx: nat) {
    RangeOf(b).Some? && RangeOf(b).value.Contains(idx)
  }

  /**
   * The second pass on a line of the code range: an instruction is encoded by
   * its mnemonic's encoder, with the arguments before a comment; an unknown
   * mnemonic is Unrecognized and data is a SectionMismatch. Other lines emit
   * nothing.
   */
  function CodeStep(r: Result<LineContent, LineError>, idx: nat): Result<seq<U8>, LineError> {
    match r
    case Failure(e) => Failure(e)
    case Success(c) =>
      match c
      case Instruction(m, args) =>
        if m in MNEMONICS then Call(MNEMONICS[m], NonBlank(BeforeComment(args)), idx)
        else Failure(Unrecognized(m, idx))
      case Data(_) => Failure(SectionMismatch(idx))
      case _ => Success([])
  }

  /** The second pass on a line of the data range: data is copied and an instruction is a SectionMismatch. */
  function DataStep(r: Result<LineContent, LineError>, idx: nat): Result<seq<U8>, LineError> {
    match r
    case Failure(e) => Failure(e)
    case Success(c) =>
      match c
      case Data(d) => Success(d)
      case Instruction(_, _) => Failure(SectionMismatch(idx))
      case _ => Success([])
  }

  /** The second pass on line idx: lines outside both ranges are not parsed and emit nothing. */
  function Pass2Step(l: Layout, r: Result<LineContent, LineError>, idx: nat): Result<seq<U8>, LineError> {
    if InRange(l.code, idx) then CodeStep(r, idx)
    else if InRange(l.data, idx) then DataStep(r, idx)
    else Success([])
  }

  /** What the second pass has written: the bytes, and the error that stopped it, if any. */
  datatype Output = Output(bytes: seq<U8>, error: Option<LineError>)

  /** The second pass over the first k parsed lines; after an error nothing more is written. */
  function Pass2Prefix(rs: seq<Result<LineContent, LineError>>, l: Layout, k: nat): (o: Output)
    requires k <= |rs|
  {
    if k == 0 then Output([], None)
    else
      var prev := Pass2Prefix(rs, l, k - 1);
      if prev.error.Some? then prev
      else
        match Pass2Step(l, rs[k - 1], k - 1)
        case Failure(e) => Output(prev.bytes, Some(e))
        case Success(bs) => Output(prev.bytes + bs, None)
  }

  /** `assemble_program` over a file with the section bounds found by the first pass. */
  function Pass2(lines: seq<string>, l: Layout): Output
    requires LinesOk(lines)
  {
    Pass2Prefix(ParseAll(lines), l, |lines|)
  }

  /** Once the second pass has stopped, it stays stopped and writes nothing more. */
  lemma {:induction false} Pass2Stops(rs: seq<Result<LineContent, LineError>>, l: Layout, i: nat, k: nat)
    requires i <= k <= |rs| && Pass2Prefix(rs, l, i).error.Some?
    ensures Pass2Prefix(rs, l, k) == Pass2Prefix(rs, l, i)
    decreases k
  {
    if k > i {
      Pass2Stops(rs, l, i, k - 1);
    }
  }

  /** What is written before line k is a prefix of what the whole pass writes. */
  lemma {:induction false} Pass2Grows(rs: seq<Result<LineContent, LineError>>, l: Layout, i: nat, k: nat)
    requires i <= k <= |rs|
    ensures Pass2Prefix(rs, l, i).bytes <= Pass2Prefix(rs, l, k).bytes
    decreases k
  {
    if k > i {
      Pass2Grows(rs, l, i, k - 1);
    }
  }

  /** Data in the code range makes the second pass fail. */
  lemma DataInCodeFails(rs: seq<Result<LineContent, LineError>>, l: Layout, j: nat)
    requires j < |rs| && InRange(l.code, j) && rs[j].Success? && rs[j].value.Data?
    ensures Pass2Prefix(rs, l, |rs|).error.Some?
  {
    if Pass2Prefix(rs, l, j).error.Some? {
      Pass2Stops(rs, l, j, |rs|);
    } else {
      assert Pass2Prefix(rs, l, j + 1).error == Some(SectionMismatch(j));
      Pass2Stops(rs, l, j + 1, |rs|);
    }
  }

  /** An instruction in the data range makes the second pass fail. */
  lemma InstructionInDataFails(rs: seq<Result<LineContent, LineError>>, l: Layout, j: nat)
    requires j < |rs| && !InRange(l.code, j) && InRange(l.data, j) && rs[j].Success? && rs[j].value.Instruction?
    ensures Pass2Prefix(rs, l, |rs|).error.Some?
  {
    if Pass2Prefix(rs, l, j).error.Some? {
      Pass2Stops(rs, l, j, |rs|);
    } else {
      assert Pass2Prefix(rs, l, j + 1).error == Some(SectionMismatch(j));
      Pass2Stops(rs, l, j + 1, |rs|);
    }
  }

  /** A mnemonic outside the table, in the code range, makes the second pass fail. */
  lemma UnknownMnemonicFails(rs: seq<Result<LineContent, LineError>>, l: Layout, j: nat)
    requires j < |rs| && InRange(l.code, j) && rs[j].Success?
    requires rs[j].value.Instruction? && rs[j].value.mnemonic !in MNEMONICS
    ensures Pass2Prefix(rs, l, |rs|).error.Some?
  {
    if Pass2Prefix(rs, l, j).error.Some? {
      Pass2Stops(rs, l, j, |rs|);
    } else {
      assert Pass2Prefix(rs, l, j + 1).error == Some(Unrecognized(rs[j].value.mnemonic, j));
      Pass2Stops(rs, l, j + 1, |rs|);
    }
  }

  /** Every data line holds whole words: an even number of bytes. */
  predicate DataEven(rs: seq<Result<LineContent, LineError>>) {
    forall j :: 0 <= j < |rs| && rs[j].Success? && rs[j].value.Data? ==> |rs[j].value.bytes| % 2 == 0
  }

  /** Every line parsed, and each instruction or data line lies inside one of the two ranges. */
  predicate Placed(rs: seq<Result<LineContent, LineError>>, l: Layout) {
    forall j :: 0 <= j < |rs| ==>
      rs[j].Success? && (LineWords(rs[j].value) > 0 ==> InRange(l.code, j) || InRange(l.data, j))
  }

  /**
   * When every instruction and data line is inside a range and the data is
   * whole words, the second pass writes two bytes for each word the first pass
   * counted: an instruction encodes to two bytes and data is copied.
   */
  lemma {:induction false} Pass2Length(rs: seq<Result<LineContent, LineError>>, l: Layout, k: nat)
    requires k <= |rs| && DataEven(rs) && Placed(rs, l)
    requires Pass2Prefix(rs, l, k).error.None?
    ensures |Pass2Prefix(rs, l, k).bytes| == 2 * WordsBefore(rs, k)
  {
    if k > 0 {
      var prev := Pass2Prefix(rs, l, k - 1);
      assert prev.error.None?;
      Pass2Length(rs, l, k - 1);
      var c := rs[k - 1].value;
      var step := Pass2Step(l, rs[k - 1], k - 1);
      assert step.Success?;
      assert Pass2Prefix(rs, l, k).bytes == prev.bytes + step.value;
      assert |step.value| == 2 * LineWords(c);
    }
  }

  /** Data lines hold whole words. */
  lemma DataLineEven(line: string, lineNum: nat)
    requires DataLine(line, lineNum).Success?
    ensures |DataLine(line, lineNum).value.bytes| % 2 == 0
  {
    var ws := if "\"" <= line then StringWords(line) else NumericWords(Split(line, ','));
    assert DataLine(line, lineNum).value.bytes == WordsToBytes(ws);
    Twice(|ws|);
  }

  /** Arithmetic step for the solver: twice a number is even. */
  lemma Twice(n: nat)
    ensures (2 * n) % 2 == 0
  {
  }

  /** A data line of the file parses to whole words. */
  lemma ParseLineDataEven(line: string, lineNum: nat)
    requires ParseLineOk(line)
    requires ParseLine(line, lineNum).Success? && ParseLine(line, lineNum).value.Data?
    ensures |ParseLine(line, lineNum).value.bytes| % 2 == 0
  {
    ParseLineDispatch(line, lineNum);
    DataLineEven(Trim(line), lineNum);
  }

  /** Every data line of a file parses to whole words. */
  lemma FileDataEven(lines: seq<string>)
    requires LinesOk(lines)
    ensures DataEven(ParseAll(lines))
  {
    var rs := ParseAll(lines);
    forall j | 0 <= j < |rs| && rs[j].Success? && rs[j].value.Data?
      ensures |rs[j].value.bytes| % 2 == 0
    {
      ParseLineDataEven(lines[j], j);
    }
  }

  /** A successful first pass parsed every line before line k. */
  lemma {:induction false} Pass1Parsed(rs: seq<Result<LineContent, LineError>>, k: nat)
    requires k <= |rs| && Pass1Prefix(rs, k).Success?
    ensures forall j :: 0 <= j < k ==> rs[j].Success?
  {
    if k > 0 {
      Pass1Parsed(rs, k - 1);
    }
  }

  /**
   * The label table agrees with the image: when both passes succeed, every
   * instruction and data line is inside a range and the data is whole words,
   * the bytes written before a label line are twice the label's address and
   * are the start of the image.
   */
  lemma LabelsMatchImage(rs: seq<Result<LineContent, LineError>>, j: nat, name: string)
    requires Pass1Of(rs).Success? && DataEven(rs) && Placed(rs, Pass1Of(rs).value.1)
    requires Pass2Prefix(rs, Pass1Of(rs).value.1, |rs|).error.None?
    requires j < |rs| && rs[j] == Success(Label(name))
    ensures name in Pass1Of(rs).value.0
    ensures var l := Pass1Of(rs).value.1;
            && 2 * Pass1Of(rs).value.0[name] == |Pass2Prefix(rs, l, j).bytes|
            && Pass2Prefix(rs, l, j).bytes <= Pass2Prefix(rs, l, |rs|).bytes
  {
    var l := Pass1Of(rs).value.1;
    assert LabelLineAt(rs, j, name);
    LabelAddresses(rs);
    if Pass2Prefix(rs, l, j).error.Some? {
      Pass2Stops(rs, l, j, |rs|);
    }
    Pass2Length(rs, l, j);
    Pass2Grows(rs, l, j, |rs|);
  }

  /** A line of the code range, parsed: the instruction's arguments go through TrimComments before the encoder. */
  method AssembleCode(parsed: Result<LineContent, LineError>, idx: nat) returns (r: Result<seq<U8>, LineError>)
    ensures r == CodeStep(parsed, idx)
  {
    if parsed.Failure? {
      return Failure(parsed.error);
    }
    match parsed.value {
      case Instruction(m, args) =>
        if m in MNEMONICS {
          var trimmed := TrimComments(args);
          r := Call(MNEMONICS[m], trimmed, idx);
        } else {
          r := Failure(Unrecognized(m, idx));
        }
      case Data(_) =>
        r := Failure(SectionMismatch(idx));
      case _ =>
        r := Success([]);
    }
  }

  /**
   * The body of the loop of `assemble_program` for line idx: the bounds are
   * looked up and the line is parsed only inside a range.
   */
  method AssembleLine(lines: seq<string>, idx: nat, syms: Symbols) returns (r: Result<seq<U8>, LineError>)
    requires LinesOk(lines) && idx < |lines|
    ensures r == Pass2Step(syms.Sections(), ParseAll(lines)[idx], idx)
  {
    var code := syms.CodeRange();
    if code.Some? && code.value.Contains(idx) {
      var parsed := ParseLineAt(lines, idx);
      r := AssembleCode(parsed, idx);
      return;
    }
    var data := syms.DataRange();
    if data.Some? && data.value.Contains(idx) {
      var parsed := ParseLineAt(lines, idx);
      r := DataStep(parsed, idx);
      return;
    }
    r := Success([]);
  }

  /** One turn of the loop of `assemble_program`: line idx is assembled, as the second pass does. */
  method AssembleLineAt(lines: seq<string>, idx: nat, syms: Symbols, ghost out: seq<U8>) returns (r: Result<seq<U8>, LineError>)
    requires LinesOk(lines) && idx < |lines|
    requires Pass2Prefix(ParseAll(lines), syms.Sections(), idx) == Output(out, None)
    ensures Pass2Prefix(ParseAll(lines), syms.Sections(), idx + 1) ==
            if r.Success? then Output(out + r.value, None) else Output(out, Some(r.error))
  {
    r := AssembleLine(lines, idx, syms);
  }

  /**
   * `assemble_program`: the lines are assembled in order and their bytes
   * written out; the first error stops it, and what was written until then
   * stays written.
   */
  method AssembleProgram(lines: seq<string>, syms: Symbols) returns (out: seq<U8>, r: Result<(), LineError>)
    requires LinesOk(lines)
    ensures Pass2(lines, syms.Sections()) == Output(out, if r.Success? then None else Some(r.error))
  {
    ghost var rs := ParseAll(lines);
    out := [];
    for idx := 0 to |lines|
      invariant Pass2Prefix(rs, syms.Sections(), idx) == Output(out, None)
    {
      var bytes := AssembleLineAt(lines, idx, syms, out);
      if bytes.Failure? {
        Pass2Stops(rs, syms.Sections(), idx + 1, |lines|);
        return out, Failure(bytes.error);
      }
      out := out + bytes.value;
    }
    return out, Success(());
  }
}
