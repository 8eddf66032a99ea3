/**
 Embedding files as C++ literals (tools/embed_files.py), against two readers of C++:
 a raw-string lexer, section 5.13.5 [lex.string] of ISO/IEC 14882:2020, and a reader of
 braced lists of decimal integers.
 */
module EmbedFiles {
  import opened Options
  import opened Words

  const DELIM: string := "~#.+^%&*=_]!-?["
  const CLOSING_SEQ: string := ")" + DELIM + "\""
  const DECLARATION: string := "inline const char "
  const INITIALISER: string := "[] = "
  const BYTES_PER_LINE := 12

  // ---------------------------------------------------------------- searching

  /** What precedes and what follows the first occurrence of pattern in s. */
  function Split(s: string, pattern: string): Option<(string, string)>
    decreases |s|
  {
    if pattern <= s then Some(("", s[|pattern|..]))
    else if s == "" then None
    else
      match Split(s[1..], pattern)
      case Some(parts) => Some(([s[0]] + parts.0, parts.1))
      case None => None
  }

  predicate Contains(s: string, pattern: string) { Split(s, pattern).Some? }

  ghost predicate OccursAt(s: string, pattern: string, p: nat)
    requires p <= |s|
  {
    pattern <= s[p..]
  }

  /** Split stops at the pattern put after a exactly when none begins earlier. */
  lemma {:induction false} SplitStopsAt(a: string, pattern: string, rest: string)
    ensures
      var s := a + pattern + rest;
      Split(s, pattern) == Some((a, rest)) <==> forall p :: 0 <= p < |a| ==> !OccursAt(s, pattern, p)
  {
    var s := a + pattern + rest;
    if a == "" {
      assert s == pattern + rest;
    } else {
      var t := a[1..] + pattern + rest;
      assert s[0] == a[0] && s[1..] == t;
      SplitStopsAt(a[1..], pattern, rest);
      assert s[0..] == s;
      forall p | 0 <= p < |a| - 1
        ensures OccursAt(t, pattern, p) <==> OccursAt(s, pattern, p + 1)
      {
        assert t[p..] == s[p + 1..];
      }
      if forall p :: 0 <= p < |a| ==> !OccursAt(s, pattern, p) {
        assert !OccursAt(s, pattern, 0);
        assert [a[0]] + a[1..] == a;
      } else if OccursAt(s, pattern, 0) {
        assert Split(s, pattern).value.0 == "";
      } else {
        var p :| 0 <= p < |a| && OccursAt(s, pattern, p);
        assert OccursAt(t, pattern, p - 1);
        assert Split(t, pattern) != Some((a[1..], rest));
      }
    }
  }

  lemma {:induction false} ContainsIffOccurs(s: string, pattern: string)
    ensures Contains(s, pattern) <==> exists p :: 0 <= p <= |s| && OccursAt(s, pattern, p)
  {
    assert s[0..] == s;
    if pattern <= s {
      assert OccursAt(s, pattern, 0);
    } else if s != "" {
      ContainsIffOccurs(s[1..], pattern);
      forall p | 0 <= p < |s|
        ensures OccursAt(s[1..], pattern, p) <==> OccursAt(s, pattern, p + 1)
      {
        assert s[1..][p..] == s[p + 1..];
      }
      if p :| 0 <= p <= |s| && OccursAt(s, pattern, p) {
        assert p > 0;
        assert OccursAt(s[1..], pattern, p - 1);
      }
    }
  }

  lemma SplitAtChar(a: string, c: char, rest: string)
    requires c !in a
    ensures Split(a + [c] + rest, [c]) == Some((a, rest))
  {
    var s := a + [c] + rest;
    forall p | 0 <= p < |a|
      ensures !OccursAt(s, [c], p)
    {
      assert s[p..][0] == a[p];
    }
    SplitStopsAt(a, [c], rest);
  }

  // ---------------------------------------------------------------- the raw-string lexer

  predicate LegalDelimiter(d: string) {
    |d| <= 16 && forall c :: c in d ==> c !in " ()\\\t\U{b}\U{c}\n"
  }

  /** The contents of a raw string whose text starts just after R and the quote, and what
      follows the closing quote. */
  function LexRaw(s: string): Option<(string, string)> {
    match Split(s, "(")
    case None => None
    case Some(begun) =>
      if LegalDelimiter(begun.0) then Split(begun.1, ")" + begun.0 + "\"") else None
  }

  /** Where LexRaw looks for the end of the contents. */
  lemma LexRawAfterDelimiter(delim: string, s: string)
    requires LegalDelimiter(delim)
    ensures LexRaw(delim + "(" + s) == Split(s, ")" + delim + "\"")
  {
    hide Split;
    assert '(' !in delim;
    SplitAtChar(delim, '(', s);
  }

  ghost predicate FirstCharNeverRecurs(pattern: string) {
    pattern != "" && forall k :: 0 < k < |pattern| ==> pattern[k] != pattern[0]
  }

  /** A match cannot straddle the end of the text: the closing sequence has its first
      character nowhere else. */
  lemma NoMatchStraddles(body: string, closing: string, rest: string, p: nat)
    requires p < |body| && FirstCharNeverRecurs(closing)
    requires OccursAt(body + closing + rest, closing, p)
    ensures OccursAt(body, closing, p)
  {
    var s := body + closing + rest;
    assert forall k :: 0 <= k < |closing| ==> s[p..][k] == closing[k];
    assert s[p..][|body| - p] == s[|body|];
    if p + |closing| > |body| {
      assert false;
    }
    assert body[p..][..|closing|] == s[p..][..|closing|];
  }

  /** Inside the literal the closing sequence begins just where it does in the text. */
  lemma OccursOnlyInText(text: string, closing: string, rest: string, p: nat)
    requires FirstCharNeverRecurs(closing) && closing[0] != '\n' && p <= |text|
    ensures
      var s := "\n" + text + closing + rest;
      OccursAt(s, closing, p) <==> p > 0 && OccursAt(text, closing, p - 1)
  {
    var body := "\n" + text;
    var s := body + closing + rest;
    if OccursAt(s, closing, p) {
      NoMatchStraddles(body, closing, rest, p);
      assert p != 0 by { assert body[0..][0] == '\n'; }
      assert body[p..] == text[p - 1..];
    } else if p > 0 {
      assert s[p..] == text[p - 1..] + closing + rest;
    }
  }

  lemma SplitEndsTextIff(text: string, closing: string, rest: string)
    requires FirstCharNeverRecurs(closing) && closing[0] != '\n'
    ensures Split("\n" + text + closing + rest, closing) == Some(("\n" + text, rest)) <==>
            !Contains(text, closing)
  {
    hide Split, Contains;
    var s := "\n" + text + closing + rest;
    SplitStopsAt("\n" + text, closing, rest);
    ContainsIffOccurs(text, closing);
    forall p | 0 <= p <= |text|
      ensures OccursAt(s, closing, p) <==> p > 0 && OccursAt(text, closing, p - 1)
    {
      OccursOnlyInText(text, closing, rest, p);
    }
    if p :| 0 <= p <= |text| && OccursAt(text, closing, p) {
      assert p < |text|;
      assert OccursAt(s, closing, p + 1);
    }
  }

  lemma DelimiterIsSound()
    ensures LegalDelimiter(DELIM) && FirstCharNeverRecurs(CLOSING_SEQ) && CLOSING_SEQ[0] == ')'
  {
  }

  /** The lexer ends at the emitted terminator, yielding a newline and the text, exactly
      for the texts that pass the generator's own check. */
  lemma LexerYieldsTextIff(text: string, rest: string)
    ensures LexRaw(DELIM + "(\n" + text + CLOSING_SEQ + rest) == Some(("\n" + text, rest)) <==>
            !Contains(text, CLOSING_SEQ)
  {
    hide Split, Contains, LexRaw, LegalDelimiter, FirstCharNeverRecurs;
    DelimiterIsSound();
    var s := "\n" + text + CLOSING_SEQ + rest;
    assert DELIM + "(\n" + text + CLOSING_SEQ + rest == DELIM + "(" + s;
    LexRawAfterDelimiter(DELIM, s);
    SplitEndsTextIff(text, CLOSING_SEQ, rest);
  }

  // ---------------------------------------------------------------- the integer-list reader

  function Decimal(n: nat): (s: string)
    ensures s != ""
  {
    if n < 10 then [Numeral(n)] else Decimal(n / 10) + [Numeral(n % 10)]
  }

  function Numeral(d: nat): char
    requires d < 10
  {
    "0123456789"[d]
  }

  function Digit(c: char): Option<nat> {
    if '0' <= c <= '9' then Some((c as int) - ('0' as int)) else None
  }

  predicate Blank(c: char) { c == ' ' || c == '\n' }

  datatype Reader = Start | Digits(n: nat) | After(n: nat)

  /** The integers of a list whose text starts after the opening brace, and what follows
      the closing one. A zero with further digits would be octal and is not read. */
  function ReadList(s: string, at: Reader, read: seq<nat>): Option<(seq<nat>, string)>
    decreases |s|
  {
    if s == "" then None
    else
      var c, t := s[0], s[1..];
      match at
      case Start =>
        if Blank(c) then ReadList(t, Start, read)
        else if c == '}' then Some((read, t))
        else (match Digit(c) case Some(d) => ReadList(t, Digits(d), read) case None => None)
      case Digits(n) =>
        if Blank(c) then ReadList(t, After(n), read)
        else if c == ',' then ReadList(t, Start, read + [n])
        else if c == '}' then Some((read + [n], t))
        else
          (match Digit(c)
           case Some(d) => if n == 0 then None else ReadList(t, Digits(10 * n + d), read)
           case None => None)
      case After(n) =>
        if Blank(c) then ReadList(t, After(n), read)
        else if c == ',' then ReadList(t, Start, read + [n])
        else if c == '}' then Some((read + [n], t))
        else None
  }

  lemma NumeralIsDigit(d: nat)
    requires d < 10
    ensures Digit(Numeral(d)) == Some(d)
    ensures !Blank(Numeral(d)) && Numeral(d) != ',' && Numeral(d) != '}'
  {
  }

  lemma {:induction false} ReadsDecimal(n: nat, rest: string, read: seq<nat>)
    ensures ReadList(Decimal(n) + rest, Start, read) == ReadList(rest, Digits(n), read)
  {
    hide Numeral, Digit, Blank;
    if n < 10 {
      NumeralIsDigit(n);
      assert (Decimal(n) + rest)[0] == Numeral(n) && (Decimal(n) + rest)[1..] == rest;
    } else {
      var last := [Numeral(n % 10)];
      assert Decimal(n) + rest == Decimal(n / 10) + (last + rest);
      ReadsDecimal(n / 10, last + rest, read);
      NumeralIsDigit(n % 10);
      assert (last + rest)[1..] == rest;
      assert 10 * (n / 10) + n % 10 == n;
    }
  }

  lemma {:induction false} ReadsBlanks(blanks: string, rest: string, read: seq<nat>)
    requires forall c :: c in blanks ==> Blank(c)
    ensures ReadList(blanks + rest, Start, read) == ReadList(rest, Start, read)
  {
    if blanks == "" {
      assert blanks + rest == rest;
    } else {
      assert (blanks + rest)[1..] == blanks[1..] + rest;
      ReadsBlanks(blanks[1..], rest, read);
    }
  }

  // ---------------------------------------------------------------- what is emitted

  function Indent(written: nat): string {
    if written % BYTES_PER_LINE == 0 then "    " else ""
  }

  function LineEnd(written: nat): string {
    if written % BYTES_PER_LINE == 0 then "\n" else ""
  }

  function Listed(data: seq<Byte>): string {
    if data == [] then ""
    else
      var n := |data| - 1;
      Listed(data[..n]) + (Indent(n) + Decimal(data[n]) + ", " + LineEnd(n + 1))
  }

  function Terminated(data: seq<Byte>): string {
    Listed(data) + Indent(|data|) + "0\n}"
  }

  lemma ReadsOneEntry(n: nat, b: nat, rest: string, read: seq<nat>)
    ensures ReadList(Indent(n) + Decimal(b) + ", " + LineEnd(n + 1) + rest, Start, read) ==
            ReadList(rest, Start, read + [b])
  {
    var tail := " " + LineEnd(n + 1) + rest;
    assert Indent(n) + Decimal(b) + ", " + LineEnd(n + 1) + rest == Indent(n) + (Decimal(b) + ("," + tail));
    ReadsBlanks(Indent(n), Decimal(b) + ("," + tail), read);
    ReadsDecimal(b, "," + tail, read);
    assert ("," + tail)[1..] == tail;
    assert tail == (" " + LineEnd(n + 1)) + rest;
    ReadsBlanks(" " + LineEnd(n + 1), rest, read + [b]);
  }

  lemma {:induction false} ReadsListed(data: seq<Byte>, rest: string, read: seq<nat>)
    ensures ReadList(Listed(data) + rest, Start, read) == ReadList(rest, Start, read + data)
  {
    hide ReadList, Decimal, Indent, LineEnd;
    if data == [] {
      assert Listed(data) + rest == rest && read + data == read;
    } else {
      var n := |data| - 1;
      var entry := Indent(n) + Decimal(data[n]) + ", " + LineEnd(n + 1);
      assert Listed(data) + rest == Listed(data[..n]) + (entry + rest);
      ReadsListed(data[..n], entry + rest, read);
      ReadsOneEntry(n, data[n], rest, read + data[..n]);
      assert read + data[..n] + [data[n]] == read + data;
    }
  }

  lemma ReadsEnd(rest: string, read: seq<nat>)
    ensures ReadList("0\n}" + rest, Start, read) == Some((read + [0], rest))
  {
    assert "0\n}" + rest == "0" + ("\n}" + rest);
    assert Decimal(0) == "0";
    ReadsDecimal(0, "\n}" + rest, read);
    assert ("\n}" + rest)[1..] == "}" + rest;
    assert ("}" + rest)[1..] == rest;
  }

  /** Reading the emitted list gives back every byte and the null terminator. */
  lemma ListReadsBack(data: seq<Byte>, rest: string)
    ensures ReadList(Terminated(data) + rest, Start, []) == Some((data + [0], rest))
  {
    hide ReadList, Listed;
    var end := "0\n}" + rest;
    assert Terminated(data) + rest == Listed(data) + (Indent(|data|) + end);
    ReadsListed(data, Indent(|data|) + end, []);
    assert [] + data == data;
    ReadsBlanks(Indent(|data|), end, data);
    ReadsEnd(rest, data);
  }

  // ---------------------------------------------------------------- whole headers

  datatype File = Text(symbol: string, text: string) | Binary(symbol: string, data: seq<Byte>)

  datatype Declared = String(symbol: string, value: string) | Array(symbol: string, values: seq<nat>)

  /** The generator's own two checks; it exits on a file that fails them. */
  predicate Accepted(file: File) {
    file.Text? ==> '\0' !in file.text && !Contains(file.text, CLOSING_SEQ)
  }

  lemma AcceptedIff(symbol: string, text: string)
    ensures Accepted(Text(symbol, text)) <==>
            && (forall i :: 0 <= i < |text| ==> text[i] != '\0')
            && !exists p :: 0 <= p <= |text| && OccursAt(text, ")~#.+^%&*=_]!-?[\"", p)
  {
    assert CLOSING_SEQ == ")~#.+^%&*=_]!-?[\"";
    ContainsIffOccurs(text, CLOSING_SEQ);
  }

  function Initialiser(file: File): string {
    match file
    case Text(_, text) => "R\"" + DELIM + "(\n" + text + CLOSING_SEQ
    case Binary(_, data) => "{\n" + Terminated(data)
  }

  function Emitted(file: File): string {
    DECLARATION + file.symbol + INITIALISER + Initialiser(file) + ";\n"
  }

  function AllEmitted(files: seq<File>): string {
    if files == [] then "" else Emitted(files[0]) + AllEmitted(files[1..])
  }

  function Meaning(file: File): Declared {
    match file
    case Text(symbol, text) => String(symbol, "\n" + text)
    case Binary(symbol, data) => Array(symbol, data + [0])
  }

  function Meanings(files: seq<File>): seq<Declared> {
    if files == [] then [] else [Meaning(files[0])] + Meanings(files[1..])
  }

  function StripPrefix(s: string, prefix: string): Option<string> {
    if prefix <= s then Some(s[|prefix|..]) else None
  }

  lemma Strips(prefix: string, rest: string)
    ensures StripPrefix(prefix + rest, prefix) == Some(rest)
  {
  }

  /** An initialiser and what follows it. */
  function ReadInitialiser(symbol: string, s: string): Option<(Declared, string)> {
    if "R\"" <= s then
      match LexRaw(s[2..])
      case Some(lexed) => Some((String(symbol, lexed.0), lexed.1))
      case None => None
    else if "{" <= s then
      match ReadList(s[1..], Start, [])
      case Some(list) => Some((Array(symbol, list.0), list.1))
      case None => None
    else None
  }

  /** One declaration: the part up to the symbol's bracket, the initialiser, the end. */
  function ReadDeclaration(s: string): Option<(Declared, string)> {
    match StripPrefix(s, DECLARATION)
    case None => None
    case Some(named) =>
      match Split(named, "[")
      case None => None
      case Some(parts) =>
        match StripPrefix("[" + parts.1, INITIALISER)
        case None => None
        case Some(init) =>
          match ReadInitialiser(parts.0, init)
          case None => None
          case Some(read) =>
            match StripPrefix(read.1, ";\n")
            case None => None
            case Some(rest) => Some((read.0, rest))
  }

  function ReadHeader(s: string): Option<seq<Declared>>
    decreases |s|
  {
    if s == "" then Some([])
    else
      match ReadDeclaration(s)
      case None => None
      case Some(first) =>
        if |first.1| >= |s| then None
        else
          match ReadHeader(first.1)
          case None => None
          case Some(others) => Some([first.0] + others)
  }

  /** The declaration of a text, character for character. */
  lemma EmittedText(symbol: string, text: string)
    ensures Emitted(Text(symbol, text)) ==
            "inline const char " + symbol + "[] = R\"~#.+^%&*=_]!-?[(\n" + text + ")~#.+^%&*=_]!-?[\";\n"
  {
    assert "[] = R\"~#.+^%&*=_]!-?[(\n" == INITIALISER + ("R\"" + DELIM + "(\n");
    assert ")~#.+^%&*=_]!-?[\";\n" == CLOSING_SEQ + ";\n";
    Associates(DECLARATION + symbol, INITIALISER, "R\"" + DELIM + "(\n", text, CLOSING_SEQ, ";\n");
  }

  lemma Associates(a: string, b: string, c: string, d: string, e: string, f: string)
    ensures a + b + (c + d + e) + f == a + (b + c) + d + (e + f)
  {
  }

  /** Numbers, each with a comma and a space. */
  function Entries(data: seq<Byte>): string {
    if data == [] then "" else Entries(data[..|data| - 1]) + Decimal(data[|data| - 1]) + ", "
  }

  lemma ListedMore(data: seq<Byte>, b: Byte)
    ensures Listed(data + [b]) == Listed(data) + (Indent(|data|) + Decimal(b) + ", " + LineEnd(|data| + 1))
    ensures Entries(data + [b]) == Entries(data) + Decimal(b) + ", "
  {
    hide Decimal, Indent, LineEnd;
    assert (data + [b])[..|data|] == data;
  }

  lemma WithinLine(n: nat)
    ensures Indent(0) == "    " && LineEnd(12) == "\n"
    ensures 0 < n < 12 ==> Indent(n) == "" && LineEnd(n) == ""
    ensures Indent(12 + n) == Indent(n) && LineEnd(13 + n) == LineEnd(n + 1)
  {
  }

  lemma AppendInner(a: string, b: string, c: string, d: string, e: string)
    ensures a + b + ("" + c + d + e) == a + (b + c + d) + e
  {
  }

  /** Up to twelve numbers share a line, which ends with the twelfth. */
  lemma {:induction false} OneLine(data: seq<Byte>)
    requires 0 < |data| <= 12
    ensures Listed(data) == "    " + Entries(data) + LineEnd(|data|)
  {
    hide Decimal, Listed, Entries, Indent, LineEnd;
    var n := |data| - 1;
    var earlier, b := data[..n], data[n];
    assert data == earlier + [b];
    ListedMore(earlier, b);
    WithinLine(n);
    if n > 0 {
      OneLine(earlier);
      AppendInner("    ", Entries(earlier), Decimal(b), ", ", LineEnd(n + 1));
      assert "    " + Entries(earlier) + "" == "    " + Entries(earlier);
    } else {
      ListedAndEnteredNothing();
      FirstEntry(Decimal(b), LineEnd(1));
    }
  }

  lemma ListedAndEnteredNothing()
    ensures Listed([]) == "" && Entries([]) == ""
  {
  }

  lemma FirstEntry(number: string, end: string)
    ensures "" + ("    " + number + ", " + end) == "    " + ("" + number + ", ") + end
  {
  }

  /** The twelve numbers of a full line, and then the lines of the rest. */
  lemma {:induction false} LinesOfTwelve(line: seq<Byte>, rest: seq<Byte>)
    requires |line| == 12
    ensures Listed(line + rest) == "    " + Entries(line) + "\n" + Listed(rest)
  {
    hide Decimal, Entries, Listed, Indent, LineEnd;
    WithinLine(0);
    if rest == [] {
      OneLine(line);
      assert line + rest == line;
      ListedAndEnteredNothing();
    } else {
      var n := |rest| - 1;
      var earlier, b := rest[..n], rest[n];
      LinesOfTwelve(line, earlier);
      assert line + rest == (line + earlier) + [b] && rest == earlier + [b];
      ListedMore(line + earlier, b);
      ListedMore(earlier, b);
      WithinLine(n);
      var entry := Indent(n) + Decimal(b) + ", " + LineEnd(n + 1);
      AppendLine("    " + Entries(line) + "\n", Listed(earlier), entry);
    }
  }

  lemma AppendLine(a: string, b: string, c: string)
    ensures a + b + c == a + (b + c)
  {
  }

  lemma TextReadsBackIff(symbol: string, text: string, rest: string)
    ensures
      var file := Text(symbol, text);
      ReadInitialiser(symbol, Initialiser(file) + rest) == Some((Meaning(file), rest)) <==>
      !Contains(text, CLOSING_SEQ)
  {
    hide Contains, LexRaw, DELIM, CLOSING_SEQ;
    LexerYieldsTextIff(text, rest);
    var literal := DELIM + "(\n" + text + CLOSING_SEQ + rest;
    assert Initialiser(Text(symbol, text)) + rest == "R\"" + literal;
  }

  lemma BinaryReadsBack(symbol: string, data: seq<Byte>, rest: string)
    ensures
      var file := Binary(symbol, data);
      ReadInitialiser(symbol, Initialiser(file) + rest) == Some((Meaning(file), rest))
  {
    hide ReadList, Terminated, LexRaw;
    var s := Initialiser(Binary(symbol, data)) + rest;
    ListReadsBack(data, rest);
    assert s[0] == '{' && s[1..] == "\n" + (Terminated(data) + rest);
    ReadsBlanks("\n", Terminated(data) + rest, []);
  }

  lemma DeclarationReadsItsInitialiser(file: File, rest: string)
    requires '[' !in file.symbol
    ensures
      var read := ReadInitialiser(file.symbol, Initialiser(file) + (";\n" + rest));
      ReadDeclaration(Emitted(file) + rest) ==
      match read
      case None => None
      case Some(r) =>
        match StripPrefix(r.1, ";\n")
        case None => None
        case Some(t) => Some((r.0, t))
  {
    hide Split, ReadInitialiser, Initialiser;
    var init := Initialiser(file) + (";\n" + rest);
    var named := file.symbol + INITIALISER + init;
    assert Emitted(file) + rest == DECLARATION + named;
    Strips(DECLARATION, named);
    assert named == file.symbol + ['['] + ("] = " + init);
    SplitAtChar(file.symbol, '[', "] = " + init);
    assert "[" + ("] = " + init) == INITIALISER + init;
    Strips(INITIALISER, init);
  }

  lemma AcceptedDeclarationReadsBack(file: File, rest: string)
    requires '[' !in file.symbol && Accepted(file)
    ensures ReadDeclaration(Emitted(file) + rest) == Some((Meaning(file), rest))
  {
    hide ReadDeclaration, ReadInitialiser, Contains, Initialiser;
    DeclarationReadsItsInitialiser(file, rest);
    match file
    case Text(symbol, text) => TextReadsBackIff(symbol, text, ";\n" + rest);
    case Binary(symbol, data) => BinaryReadsBack(symbol, data, ";\n" + rest);
    Strips(";\n", rest);
  }

  /** Every header the generator writes reads back, symbol by symbol, to the contents of
      the files it was given: whatever their number, sizes and bytes. */
  lemma {:induction false} HeaderReadsBack(files: seq<File>)
    requires forall f :: f in files ==> '[' !in f.symbol && Accepted(f)
    ensures ReadHeader(AllEmitted(files)) == Some(Meanings(files))
  {
    if files != [] {
      var rest := AllEmitted(files[1..]);
      AcceptedDeclarationReadsBack(files[0], rest);
      HeaderReadsBack(files[1..]);
    }
  }

  // ---------------------------------------------------------------- the generator

  lemma PiecesOfText(before: string, symbol: string, text: string)
    ensures before + (DECLARATION + symbol + INITIALISER + "R\"" + DELIM + "(\n") + text + (")" + DELIM + "\";\n") ==
            before + Emitted(Text(symbol, text))
  {
    hide DECLARATION, INITIALISER, DELIM;
    assert CLOSING_SEQ + ";\n" == ")" + DELIM + "\";\n";
    var opening := "R\"" + DELIM + "(\n";
    RegroupText(before, DECLARATION + symbol + INITIALISER, opening, text, CLOSING_SEQ, ";\n");
    assert DECLARATION + symbol + INITIALISER + "R\"" + DELIM + "(\n" == DECLARATION + symbol + INITIALISER + opening;
  }

  lemma RegroupText(p: string, a: string, b: string, t: string, e: string, f: string)
    ensures p + (a + b) + t + (e + f) == p + (a + (b + t + e) + f)
  {
  }

  lemma PiecesOfEntry(before: string, data: seq<Byte>, i: nat)
    requires i < |data|
    ensures before + Listed(data[..i]) + Indent(i) + (Decimal(data[i]) + ", ") + LineEnd(i + 1) ==
            before + Listed(data[..i + 1])
  {
    hide Decimal, Indent, LineEnd;
    assert data[..i + 1][..i] == data[..i];
  }

  lemma Regroup(p: string, a: string, b: string, l: string, d: string, e: string, f: string)
    ensures p + (a + b) + l + d + (e + f) == p + (a + (b + (l + d + e)) + f)
  {
  }

  lemma PiecesOfBinary(before: string, symbol: string, data: seq<Byte>)
    ensures before + (DECLARATION + symbol + INITIALISER + "{\n") + Listed(data) + Indent(|data|) + "0\n};\n" ==
            before + Emitted(Binary(symbol, data))
  {
    hide DECLARATION, INITIALISER, Listed, Indent;
    assert "0\n};\n" == "0\n}" + ";\n";
    Regroup(before, DECLARATION + symbol + INITIALISER, "{\n", Listed(data), Indent(|data|), "0\n}", ";\n");
  }

  class Header {
    var h: string

    constructor ()
      ensures h == ""
    {
      h := "";
    }

    method Write(s: string)
      modifies this
      ensures h == old(h) + s
    {
      h := h + s;
    }

    /** False, writing nothing, where the script exits. */
    method EmitReadable(symbol: string, text: string) returns (ok: bool)
      modifies this
      ensures ok <==> Accepted(Text(symbol, text))
      ensures h == old(h) + if ok then Emitted(Text(symbol, text)) else ""
    {
      hide Contains, Emitted, DECLARATION, INITIALISER, DELIM, CLOSING_SEQ;
      if '\0' in text {
        return false;
      }
      if Contains(text, CLOSING_SEQ) {
        return false;
      }
      Write(DECLARATION + symbol + INITIALISER + "R\"" + DELIM + "(\n");
      Write(text);
      Write(")" + DELIM + "\";\n");
      ok := true;
      PiecesOfText(old(h), symbol, text);
    }

    method EmitBinary(symbol: string, data: seq<Byte>)
      modifies this
      ensures h == old(h) + Emitted(Binary(symbol, data))
    {
      hide Emitted, Decimal, Listed, DECLARATION, INITIALISER;
      Write(DECLARATION + symbol + INITIALISER + "{\n");
      ghost var headed := h;
      assert data[..0] == [] && headed == headed + Listed([]) by {
        ListedAndEnteredNothing();
      }
      var lineBytes := 0;
      for i := 0 to |data|
        invariant lineBytes == i % BYTES_PER_LINE
        invariant h == headed + Listed(data[..i])
      {
        if lineBytes == 0 {
          Write("    ");
        }
        Write(Decimal(data[i]) + ", ");
        lineBytes := lineBytes + 1;
        if lineBytes >= BYTES_PER_LINE {
          Write("\n");
          lineBytes := 0;
        }
        PiecesOfEntry(headed, data, i);
      }
      assert data[..|data|] == data;
      if lineBytes == 0 {
        Write("    ");
      }
      Write("0\n};\n");
      PiecesOfBinary(old(h), symbol, data);
    }
  }
}
