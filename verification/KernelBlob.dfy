/**
 `gen_kernel_blob.py`: the C++ initialiser printed from the padded image, and an independent reader
 that tokenises C++ text character by character and reads the two declarations back.
 */
module KernelBlob {
  import opened Bytes
  import opened Wrappers

  // ---------- The text that is printed ----------

  function HexDigit(d: nat): char
    requires d < 16
  {
    "0123456789ABCDEF"[d]
  }

  function DecimalDigit(d: nat): char
    requires d < 10
  {
    "0123456789"[d]
  }

  /** `f"0x{b:02X}"`. */
  function Hex(b: Byte): string {
    ['0', 'x', HexDigit(b / 16), HexDigit(b % 16)]
  }

  function Decimal(n: nat): string {
    if n < 10 then [DecimalDigit(n)] else Decimal(n / 10) + [DecimalDigit(n % 10)]
  }

  function Indent(i: nat): string {
    if i % 16 == 0 then "    " else ""
  }

  function LineEnd(i: nat): string {
    if i % 16 == 15 then "\n" else ""
  }

  /** The elements: sixteen to a line. */
  function Elements(data: seq<Byte>): string {
    if data == [] then ""
    else
      var i := |data| - 1;
      Elements(data[..i]) + (Indent(i) + (Hex(data[i]) + [','] + [' ']) + LineEnd(i))
  }

  const COMMENT: string := " generated kernel_blob.inc"
  const BLOB_OPENS: string := (("static" + " ") + ("const" + " ") + ("unsigned" + " ")) + ("char" + " ")
      + ("kernel_blob" + "[") + "] = {\n"
  const BLOB_CLOSES: string := "\n};\n"
  const LENGTH_OPENS: string := (("static" + " ") + ("const" + " ") + ("unsigned" + " ")) + ("long" + " ")
      + ("kernel_blob_len" + " ") + ("=" + " ")

  function Text(data: seq<Byte>): string {
    ("//" + COMMENT + "\n") + BLOB_OPENS + Elements(data) + BLOB_CLOSES + LENGTH_OPENS + (Decimal(|data|) + ";") + "\n"
  }

  /** The script's output. */
  method Print(data: seq<Byte>) returns (text: string)
    ensures text == Text(data)
    ensures ReadText(text) == Some(Blob(data, |data|))
  {
    hide Text, Elements, ReadText, Indent, LineEnd;
    text := ("//" + COMMENT + "\n") + BLOB_OPENS;
    ghost var opening := text;
    assert text + Elements([]) == text by { NoElements(); }
    for i := 0 to |data|
      invariant text == opening + Elements(data[..i])
    {
      assert data[..i + 1][..i] == data[..i];
      MoreElements(data[..i + 1]);
      if i % 16 == 0 {
        text := text + "    ";
      }
      text := text + (Hex(data[i]) + [','] + [' ']);
      if i % 16 == 15 {
        text := text + "\n";
      }
      OneElement(opening, Elements(data[..i]), i, Hex(data[i]) + [','] + [' '], text);
    }
    assert data[..|data|] == data;
    text := text + BLOB_CLOSES + LENGTH_OPENS + (Decimal(|data|) + ";") + "\n";
    TextParts(data);
    ReadsBack(data);
  }

  lemma NoElements()
    ensures Elements([]) == ""
  {
  }

  lemma MoreElements(data: seq<Byte>)
    requires data != []
    ensures var i := |data| - 1;
            Elements(data) == Elements(data[..i]) + (Indent(i) + (Hex(data[i]) + [','] + [' ']) + LineEnd(i))
  {
  }

  lemma OneElement(opening: string, done: string, i: nat, item: string, text: string)
    requires text == if i % 16 == 0 then opening + done + "    " + item
                     else if i % 16 == 15 then opening + done + item + "\n"
                     else opening + done + item
    ensures text == opening + (done + (Indent(i) + item + LineEnd(i)))
  {
    assert Indent(i) + item + LineEnd(i) ==
           if i % 16 == 0 then "    " + item else if i % 16 == 15 then item + "\n" else item;
  }

  // ---------- The layout of the text ----------

  /** Where element `i` begins in the list: six characters each, four blanks a line, a line break behind sixteen. */
  function ElementPlace(i: nat): nat {
    6 * i + 4 * ((i + 16) / 16) + i / 16
  }

  /** The upper-case hexadecimal digit of `d`, by its code. */
  lemma HexCode(d: nat)
    requires d < 16
    ensures HexDigit(d) as int == if d < 10 then 48 + d else 55 + d
  {
  }

  /** The length of the list of elements. */
  lemma {:induction false} ElementsLength(data: seq<Byte>)
    ensures |Elements(data)| == 6 * |data| + 4 * ((|data| + 15) / 16) + |data| / 16
  {
    if data != [] {
      var i := |data| - 1;
      ElementsLength(data[..i]);
      Sixteenth(i);
    }
  }

  lemma Sixteenth(i: nat)
    ensures (i + 16) / 16 == (i + 15) / 16 + (if i % 16 == 0 then 1 else 0)
    ensures (i + 1) / 16 == i / 16 + (if i % 16 == 15 then 1 else 0)
  {
    var q, r := i / 16, i % 16;
    assert i == 16 * q + r;
  }

  /**
   Element `i` with value `b`, as it stands at place `at` of a list: `0x`, two digits, a comma and a blank.
   The first of a line has four blanks before it, the last of a full line a line break behind it.
   */
  predicate ElementStands(s: string, at: nat, i: nat, b: Byte) {
    && at + 6 <= |s| && s[at] == '0' && s[at + 1] == 'x' && s[at + 4] == ',' && s[at + 5] == ' '
    && s[at + 2] == HexDigit(b / 16) && s[at + 3] == HexDigit(b % 16)
    && (i % 16 == 0 ==> at >= 4 && s[at - 4] == s[at - 3] == s[at - 2] == s[at - 1] == ' ')
    && (i % 16 == 15 ==> at + 7 <= |s| && s[at + 6] == '\n')
  }

  /** The list of elements, element by element. */
  lemma {:induction false} ElementAt(data: seq<Byte>, i: nat)
    requires i < |data|
    ensures ElementStands(Elements(data), ElementPlace(i), i, data[i])
  {
    hide ElementStands, Hex, Indent, LineEnd;
    var n := |data| - 1;
    var item := Hex(data[n]) + [','] + [' '];
    MoreElements(data);
    if i < n {
      ElementAt(data[..n], i);
      StillStands(Elements(data[..n]), ElementPlace(i), i, data[i], Indent(n) + item + LineEnd(n));
    } else {
      ElementsLength(data[..n]);
      Sixteenth(i);
      LastStands(Elements(data[..n]), n, data[n]);
    }
  }

  lemma StillStands(s: string, at: nat, i: nat, b: Byte, more: string)
    requires ElementStands(s, at, i, b)
    ensures ElementStands(s + more, at, i, b)
  {
    hide HexDigit;
  }

  lemma LastStands(s: string, i: nat, b: Byte)
    ensures ElementStands(s + (Indent(i) + (Hex(b) + [','] + [' ']) + LineEnd(i)), |s| + |Indent(i)|, i, b)
    ensures |Indent(i)| == if i % 16 == 0 then 4 else 0
  {
    hide HexDigit;
    var item := Hex(b) + [','] + [' '];
    assert |item| == 6;
  }

  /** The text around the list. */
  lemma TextLines(data: seq<Byte>)
    ensures Text(data) ==
            "// generated kernel_blob.inc\n"
            + "static const unsigned " + "char kernel_blob" + "[] = {\n" + Elements(data) + "\n};\n"
            + "static const unsigned " + "long kernel_blob_len = " + Decimal(|data|) + ";\n"
  {
    hide Text, Elements, Decimal;
    FixedText();
    TextParts(data);
    JoinText("// generated kernel_blob.inc\n", "static const unsigned ", "char kernel_blob", "[] = {\n", Elements(data),
      "\n};\n", "long kernel_blob_len = ", Decimal(|data|));
  }

  lemma FixedText()
    ensures "//" + COMMENT + "\n" == "// generated kernel_blob.inc\n" && BLOB_CLOSES == "\n};\n"
    ensures BLOB_OPENS == "static const unsigned " + "char kernel_blob" + "[] = {\n"
    ensures LENGTH_OPENS == "static const unsigned " + "long kernel_blob_len = "
  {
    CommentText();
    TypeText();
    NameText();
    LengthText();
  }

  lemma CommentText()
    ensures "//" + COMMENT + "\n" == "// generated kernel_blob.inc\n"
  {
  }

  lemma TypeText()
    ensures ("static" + " ") + ("const" + " ") + ("unsigned" + " ") == "static const unsigned "
  {
  }

  lemma NameText()
    ensures ("char" + " ") + ("kernel_blob" + "[") + "] = {\n" == "char kernel_blob" + "[] = {\n"
  {
  }

  lemma LengthText()
    ensures ("long" + " ") + ("kernel_blob_len" + " ") + ("=" + " ") == "long kernel_blob_len = "
  {
  }

  lemma JoinText(a: string, b: string, c: string, d: string, e: string, f: string, g: string, h: string)
    ensures a + (b + c + d) + e + f + (b + g) + (h + ";") + "\n" == a + b + c + d + e + f + b + g + h + ";\n"
  {
    assert ";" + "\n" == ";\n";
  }

  lemma TextParts(data: seq<Byte>)
    ensures Text(data) ==
            ("//" + COMMENT + "\n") + BLOB_OPENS + Elements(data) + BLOB_CLOSES + LENGTH_OPENS + (Decimal(|data|)
                + ";") + "\n"
  {
  }

  // ---------- Tokens ----------

  /** A name or number, or a single other character. */
  datatype Token = Name(text: string) | Mark(c: char)

  datatype Mode = Code | Slash | Comment

  /** The tokens so far, the name being read, and whether a comment began. */
  datatype Lexer = Lexer(tokens: seq<Token>, word: string, mode: Mode) {
    function Flush(): Lexer {
      if word == "" then this else Lexer(tokens + [Name(word)], "", mode)
    }

    function CodeChar(c: char): Lexer {
      if IsWordChar(c) then Lexer(tokens, word + [c], Code)
      else if IsBlank(c) then Flush()
      else if c == '/' then Lexer(Flush().tokens, "", Slash)
      else Lexer(Flush().tokens + [Mark(c)], "", Code)
    }

    function Feed(c: char): Lexer {
      match mode
      case Comment => if c == '\n' then Lexer(tokens, word, Code) else this
      case Slash => if c == '/' then Lexer(tokens, word, Comment) else Lexer(tokens + [Mark('/')], "", Code).CodeChar(c)
      case Code => CodeChar(c)
    }
  }

  predicate IsWordChar(c: char) {
    'a' <= c <= 'z' || 'A' <= c <= 'Z' || '0' <= c <= '9' || c == '_'
  }

  predicate IsBlank(c: char) {
    c == ' ' || c == '\n' || c == '\t'
  }

  predicate IsWord(w: string) {
    forall i | 0 <= i < |w| :: IsWordChar(w[i])
  }

  /** Feed a text to the lexer, character by character. */
  function Scan(l: Lexer, s: string): Lexer {
    if s == "" then l else Scan(l, s[..|s| - 1]).Feed(s[|s| - 1])
  }

  function Between(tokens: seq<Token>): Lexer {
    Lexer(tokens, "", Code)
  }

  // ---------- Reading the declarations ----------

  datatype Blob = Blob(bytes: seq<Byte>, length: nat)

  function Digit(c: char): Option<nat> {
    if '0' <= c <= '9' then Some((c as int - '0' as int) as nat)
    else if 'A' <= c <= 'F' then Some((c as int - 'A' as int) as nat + 10)
    else if 'a' <= c <= 'f' then Some((c as int - 'a' as int) as nat + 10)
    else None
  }

  function Value(s: string, base: nat): Option<nat> {
    if s == "" then Some(0)
    else
      var high, d := Value(s[..|s| - 1], base), Digit(s[|s| - 1]);
      if high.Some? && d.Some? && d.value < base then Some(high.value * base + d.value) else None
  }

  /** An integer literal: hexadecimal behind `0x`, else decimal; octal literals are not read. */
  function Number(w: string): Option<nat> {
    if |w| > 2 && w[0] == '0' && w[1] == 'x' then Value(w[2..], 16)
    else if w == "" || (w[0] == '0' && |w| > 1) then None
    else Value(w, 10)
  }

  /** The elements up to the closing brace, and the tokens behind it. */
  function ReadList(ts: seq<Token>): Option<(seq<Byte>, seq<Token>)>
    decreases |ts|
  {
    if ts == [] then None
    else if ts[0] == Mark('}') then Some(([], ts[1..]))
    else if |ts| >= 2 && ts[0].Name? && Number(ts[0].text).Some? && Number(ts[0].text).value < 256
            && (ts[1] == Mark(',') || ts[1] == Mark('}')) then
      var rest := ReadList(if ts[1] == Mark(',') then ts[2..] else ts[1..]);
      if rest.None? then None else Some(([Number(ts[0].text).value] + rest.value.0, rest.value.1))
    else None
  }

  const BLOB_DECLARED: seq<Token> :=
    [Name("static"), Name("const"), Name("unsigned"), Name("char"), Name("kernel_blob"), Mark('['), Mark(']'),
        Mark('='), Mark('{')]
  const LENGTH_DECLARED: seq<Token> :=
    [Mark(';'), Name("static"), Name("const"), Name("unsigned"), Name("long"), Name("kernel_blob_len"), Mark('=')]

  /** The array declaration, then the length declaration, and nothing else. */
  function ReadFile(ts: seq<Token>): Option<Blob> {
    if !(BLOB_DECLARED <= ts) then None
    else
      var list := ReadList(ts[|BLOB_DECLARED|..]);
      if list.None? || !(LENGTH_DECLARED <= list.value.1) then None
      else
        var rest := list.value.1[|LENGTH_DECLARED|..];
        if |rest| == 2 && rest[0].Name? && Number(rest[0].text).Some? && rest[1] == Mark(';') then
          Some(Blob(list.value.0, Number(rest[0].text).value))
        else None
  }

  function ReadText(s: string): Option<Blob> {
    ReadFile(Scan(Between([]), s).Flush().tokens)
  }

  // ---------- Scanning pieces of text ----------

  lemma {:induction false} ScanAppend(l: Lexer, a: string, b: string)
    ensures Scan(l, a + b) == Scan(Scan(l, a), b)
  {
    hide Lexer.Feed;
    if b == "" {
      assert a + b == a;
    } else {
      var n := |b| - 1;
      assert (a + b)[..|a + b| - 1] == a + b[..n];
      ScanAppend(l, a, b[..n]);
    }
  }

  lemma ScanChar(l: Lexer, c: char)
    ensures Scan(l, [c]) == l.Feed(c)
  {
    assert [c][..0] == "";
  }

  /** Name characters only lengthen the name. */
  lemma {:induction false} ScanWord(l: Lexer, w: string)
    requires l.mode == Code && IsWord(w)
    ensures Scan(l, w) == Lexer(l.tokens, l.word + w, Code)
  {
    if w == "" {
      assert l.word + w == l.word;
    } else {
      var n := |w| - 1;
      ScanWord(l, w[..n]);
      assert l.word + w == (l.word + w[..n]) + [w[n]];
    }
  }

  /** A name before a blank, or before a mark. */
  lemma ScanName(ts: seq<Token>, w: string, c: char)
    requires w != "" && IsWord(w) && !IsWordChar(c) && c != '/'
    ensures Scan(Between(ts), w + [c]) == Between(ts + [Name(w)] + if IsBlank(c) then [] else [Mark(c)])
  {
    ScanAppend(Between(ts), w, [c]);
    ScanWord(Between(ts), w);
    assert "" + w == w;
    ScanChar(Lexer(ts, w, Code), c);
    assert ts + [Name(w)] + [] == ts + [Name(w)];
  }

  lemma {:induction false} ScanBlanks(ts: seq<Token>, s: string)
    requires forall i | 0 <= i < |s| :: IsBlank(s[i])
    ensures Scan(Between(ts), s) == Between(ts)
  {
    if s != "" {
      ScanBlanks(ts, s[..|s| - 1]);
    }
  }

  lemma {:induction false} ScanComment(ts: seq<Token>, s: string)
    requires forall i | 0 <= i < |s| :: s[i] != '\n'
    ensures Scan(Lexer(ts, "", Comment), s) == Lexer(ts, "", Comment)
  {
    if s != "" {
      ScanComment(ts, s[..|s| - 1]);
    }
  }

  /** A line comment leaves no token. */
  lemma ScanLineComment(ts: seq<Token>, s: string)
    requires forall i | 0 <= i < |s| :: s[i] != '\n'
    ensures Scan(Between(ts), "//" + s + "\n") == Between(ts)
  {
    ScanAppend(Between(ts), "//" + s, "\n");
    ScanAppend(Between(ts), "//", s);
    assert "//" == "/" + "/";
    ScanAppend(Between(ts), "/", "/");
    ScanChar(Between(ts), '/');
    ScanChar(Lexer(ts, "", Slash), '/');
    ScanComment(ts, s);
    ScanChar(Lexer(ts, "", Comment), '\n');
  }

  // ---------- Numbers ----------

  lemma HexReads(b: Byte)
    ensures IsWord(Hex(b)) && Number(Hex(b)) == Some(b)
  {
    var s := Hex(b)[2..];
    assert s[..1] == [HexDigit(b / 16)] && s[..1][..0] == "";
    DigitOfHex(b / 16);
    DigitOfHex(b % 16);
    assert Value(s[..1], 16) == Some(b / 16);
  }

  lemma DigitOfHex(d: nat)
    requires d < 16
    ensures IsWordChar(HexDigit(d)) && Digit(HexDigit(d)) == Some(d)
  {
  }

  lemma DigitOfDecimal(d: nat)
    requires d < 10
    ensures '0' <= DecimalDigit(d) <= '9' && Digit(DecimalDigit(d)) == Some(d) && (DecimalDigit(d) == '0' ==> d == 0)
  {
  }

  lemma {:induction false} DecimalReads(n: nat)
    ensures IsWord(Decimal(n)) && Decimal(n) != "" && Value(Decimal(n), 10) == Some(n)
    ensures Decimal(n)[0] == '0' ==> n == 0
    ensures n == 0 ==> |Decimal(n)| == 1
    ensures forall i | 0 <= i < |Decimal(n)| :: '0' <= Decimal(n)[i] <= '9'
  {
    hide DecimalDigit, Digit;
    var s := Decimal(n);
    if n < 10 {
      DigitOfDecimal(n);
      assert s[..0] == "";
    } else {
      DigitOfDecimal(n % 10);
      DecimalReads(n / 10);
      assert s[..|s| - 1] == Decimal(n / 10);
    }
  }

  lemma NumberOfDecimal(n: nat)
    ensures Number(Decimal(n)) == Some(n)
  {
    hide Value, Decimal;
    DecimalReads(n);
  }

  // ---------- The elements ----------

  function ElementTokens(data: seq<Byte>): seq<Token> {
    if data == [] then [] else [Name(Hex(data[0])), Mark(',')] + ElementTokens(data[1..])
  }

  lemma {:induction false} ElementTokensGrow(data: seq<Byte>, b: Byte)
    ensures ElementTokens(data + [b]) == ElementTokens(data) + [Name(Hex(b)), Mark(',')]
  {
    hide Hex;
    if data == [] {
      assert (data + [b])[1..] == [];
    } else {
      assert (data + [b])[1..] == data[1..] + [b];
      ElementTokensGrow(data[1..], b);
    }
  }

  lemma {:induction false} ListReads(data: seq<Byte>, rest: seq<Token>)
    ensures ReadList(ElementTokens(data) + ([Mark('}')] + rest)) == Some((data, rest))
  {
    hide Hex, Number;
    var ts := ElementTokens(data) + ([Mark('}')] + rest);
    if data == [] {
      assert ts == [Mark('}')] + rest;
    } else {
      HexReads(data[0]);
      ListReads(data[1..], rest);
      assert ts == [Name(Hex(data[0])), Mark(',')] + (ElementTokens(data[1..]) + ([Mark('}')] + rest));
      assert [data[0]] + data[1..] == data;
    }
  }

  lemma ScanElement(ts: seq<Token>, i: nat, b: Byte)
    ensures Scan(Between(ts), Indent(i) + (Hex(b) + [','] + [' ']) + LineEnd(i)) == Between(ts + [Name(Hex(b)),
            Mark(',')])
  {
    hide Scan, Number;
    var item := Hex(b) + [','] + [' '];
    var ts' := ts + [Name(Hex(b)), Mark(',')];
    ScanAppend(Between(ts), Indent(i) + item, LineEnd(i));
    ScanAppend(Between(ts), Indent(i), item);
    ScanAppend(Between(ts), Hex(b) + [','], [' ']);
    ScanBlanks(ts, Indent(i));
    HexReads(b);
    ScanName(ts, Hex(b), ',');
    assert ts + [Name(Hex(b))] + [Mark(',')] == ts';
    ScanBlanks(ts', [' ']);
    ScanBlanks(ts', LineEnd(i));
  }

  lemma {:induction false} ScanElements(ts: seq<Token>, data: seq<Byte>)
    ensures Scan(Between(ts), Elements(data)) == Between(ts + ElementTokens(data))
  {
    hide Hex, Indent, LineEnd;
    if data == [] {
      assert ts + [] == ts;
    } else {
      var i := |data| - 1;
      ScanElements(ts, data[..i]);
      MoreElements(data);
      ScanAppend(Between(ts), Elements(data[..i]), Indent(i) + (Hex(data[i]) + [','] + [' ']) + LineEnd(i));
      ScanElement(ts + ElementTokens(data[..i]), i, data[i]);
      ElementTokensGrow(data[..i], data[i]);
      assert data[..i] + [data[i]] == data;
      assert (ts + ElementTokens(data[..i])) + [Name(Hex(data[i])), Mark(',')] == ts + ElementTokens(data);
    }
  }

  // ---------- The whole file ----------

  lemma ScanStaticConstUnsigned(ts: seq<Token>)
    ensures Scan(Between(ts), ("static" + " ") + ("const" + " ") + ("unsigned" + " "))
         == Between(ts + [Name("static"), Name("const"), Name("unsigned")])
  {
    hide Scan;
    var t1 := ts + [Name("static")];
    var t2 := t1 + [Name("const")];
    ScanName(ts, "static", ' ');
    ScanName(t1, "const", ' ');
    ScanName(t2, "unsigned", ' ');
    assert t1 + [] == t1 && t2 + [] == t2;
    assert t2 + [Name("unsigned")] + [] == ts + [Name("static"), Name("const"), Name("unsigned")];
    ScanAppend(Between(ts), "static" + " ", "const" + " ");
    ScanAppend(Between(ts), ("static" + " ") + ("const" + " "), "unsigned" + " ");
  }

  lemma ScanMark(ts: seq<Token>, c: char)
    requires !IsWordChar(c) && !IsBlank(c) && c != '/'
    ensures Scan(Between(ts), [c]) == Between(ts + [Mark(c)])
  {
    ScanChar(Between(ts), c);
  }

  lemma ScanMarkBlank(ts: seq<Token>, c: char, blank: char)
    requires !IsWordChar(c) && !IsBlank(c) && c != '/' && IsBlank(blank)
    ensures Scan(Between(ts), [c] + [blank]) == Between(ts + [Mark(c)])
  {
    hide Scan;
    ScanMark(ts, c);
    ScanBlanks(ts + [Mark(c)], [blank]);
    ScanAppend(Between(ts), [c], [blank]);
  }

  /** `] = {` and the end of the line. */
  lemma ScanInitialiser(ts: seq<Token>)
    ensures Scan(Between(ts), "] = {\n") == Between(ts + [Mark(']'), Mark('='), Mark('{')])
  {
    hide Scan;
    var t1 := ts + [Mark(']')];
    var t2 := t1 + [Mark('=')];
    ScanMarkBlank(ts, ']', ' ');
    ScanMarkBlank(t1, '=', ' ');
    ScanMarkBlank(t2, '{', '\n');
    ScanAppend(Between(ts), "]" + " ", "=" + " ");
    ScanAppend(Between(ts), ("]" + " ") + ("=" + " "), "{" + "\n");
    assert ("]" + " ") + ("=" + " ") + ("{" + "\n") == "] = {\n";
    assert t2 + [Mark('{')] == ts + [Mark(']'), Mark('='), Mark('{')];
  }

  lemma ScanBlobOpens(ts: seq<Token>)
    ensures Scan(Between(ts), BLOB_OPENS) == Between(ts + BLOB_DECLARED)
  {
    hide Scan;
    var begun := ("static" + " ") + ("const" + " ") + ("unsigned" + " ");
    var t3 := ts + [Name("static"), Name("const"), Name("unsigned")];
    var t4 := t3 + [Name("char")];
    var t6 := t4 + [Name("kernel_blob")] + [Mark('[')];
    ScanStaticConstUnsigned(ts);
    ScanName(t3, "char", ' ');
    assert t4 + [] == t4;
    ScanName(t4, "kernel_blob", '[');
    ScanInitialiser(t6);
    ScanAppend(Between(ts), begun, "char" + " ");
    ScanAppend(Between(ts), begun + ("char" + " "), "kernel_blob" + "[");
    ScanAppend(Between(ts), begun + ("char" + " ") + ("kernel_blob" + "["), "] = {\n");
    assert t6 + [Mark(']'), Mark('='), Mark('{')] == ts + BLOB_DECLARED;
  }

  lemma ScanBlobCloses(ts: seq<Token>)
    ensures Scan(Between(ts), BLOB_CLOSES) == Between(ts + [Mark('}'), Mark(';')])
  {
    hide Scan;
    var t1 := ts + [Mark('}')];
    ScanBlanks(ts, "\n");
    ScanMark(ts, '}');
    ScanMarkBlank(t1, ';', '\n');
    ScanAppend(Between(ts), "\n", "}");
    ScanAppend(Between(ts), "\n" + "}", ";" + "\n");
    assert ("\n" + "}") + (";" + "\n") == BLOB_CLOSES;
    assert t1 + [Mark(';')] == ts + [Mark('}'), Mark(';')];
  }

  lemma ScanLengthOpens(ts: seq<Token>)
    ensures Scan(Between(ts + [Mark(';')]), LENGTH_OPENS) == Between(ts + LENGTH_DECLARED)
  {
    hide Scan;
    var begun := ("static" + " ") + ("const" + " ") + ("unsigned" + " ");
    var t0 := ts + [Mark(';')];
    var t3 := t0 + [Name("static"), Name("const"), Name("unsigned")];
    var t4 := t3 + [Name("long")];
    var t5 := t4 + [Name("kernel_blob_len")];
    ScanStaticConstUnsigned(t0);
    ScanName(t3, "long", ' ');
    ScanName(t4, "kernel_blob_len", ' ');
    assert t4 + [] == t4 && t5 + [] == t5;
    ScanMarkBlank(t5, '=', ' ');
    ScanAppend(Between(t0), begun, "long" + " ");
    ScanAppend(Between(t0), begun + ("long" + " "), "kernel_blob_len" + " ");
    ScanAppend(Between(t0), begun + ("long" + " ") + ("kernel_blob_len" + " "), "=" + " ");
    assert t5 + [Mark('=')] == ts + LENGTH_DECLARED;
  }

  lemma ScanLength(ts: seq<Token>, n: nat)
    ensures Scan(Between(ts), Decimal(n) + ";" + "\n") == Between(ts + [Name(Decimal(n)), Mark(';')])
  {
    hide Scan, Decimal, Value;
    DecimalReads(n);
    ScanName(ts, Decimal(n), ';');
    ScanBlanks(ts + [Name(Decimal(n))] + [Mark(';')], "\n");
    ScanAppend(Between(ts), Decimal(n) + ";", "\n");
    assert ts + [Name(Decimal(n))] + [Mark(';')] == ts + [Name(Decimal(n)), Mark(';')];
  }

  /** Six pieces of text, one after the other. */
  lemma ScanSix(l0: Lexer, l1: Lexer, l2: Lexer, l3: Lexer, l4: Lexer, l5: Lexer, l6: Lexer,
                a: string, b: string, c: string, d: string, e: string, f: string)
    requires Scan(l0, a) == l1 && Scan(l1, b) == l2 && Scan(l2, c) == l3
    requires Scan(l3, d) == l4 && Scan(l4, e) == l5 && Scan(l5, f) == l6
    ensures Scan(l0, a + b + c + d + e + f) == l6
  {
    hide Scan;
    ScanAppend(l0, a, b);
    ScanAppend(l0, a + b, c);
    ScanAppend(l0, a + b + c, d);
    ScanAppend(l0, a + b + c + d, e);
    ScanAppend(l0, a + b + c + d + e, f);
  }

  /** The tokens of the printed text. */
  lemma ScanText(data: seq<Byte>)
    ensures Scan(Between([]), Text(data)) ==
            Between(BLOB_DECLARED + (ElementTokens(data) + ([Mark('}')] + (LENGTH_DECLARED + [Name(Decimal(|data|)),
                Mark(';')]))))
  {
    hide Scan, ElementTokens, Elements, Decimal;
    var t1 := [] + BLOB_DECLARED;
    var t2 := t1 + ElementTokens(data);
    var t3 := t2 + [Mark('}')];
    var t5 := t3 + LENGTH_DECLARED;
    var last := [Name(Decimal(|data|)), Mark(';')];
    ScanHeaderComment();
    ScanBlobOpens([]);
    ScanElements(t1, data);
    ScanClosed(t2);
    ScanLengthOpens(t3);
    ScanLength(t5, |data|);
    ScanSix(Between([]), Between([]), Between(t1), Between(t2), Between(t3 + [Mark(';')]), Between(t5), Between(t5
        + last),
            "//" + COMMENT + "\n", BLOB_OPENS, Elements(data), BLOB_CLOSES, LENGTH_OPENS, Decimal(|data|) + ";" + "\n");
    TextAsSix(data);
    JoinTokens(ElementTokens(data), last);
  }

  lemma ScanHeaderComment()
    ensures Scan(Between([]), "//" + COMMENT + "\n") == Between([])
  {
    hide Scan;
    ScanLineComment([], COMMENT);
  }

  lemma ScanClosed(ts: seq<Token>)
    ensures Scan(Between(ts), BLOB_CLOSES) == Between(ts + [Mark('}')] + [Mark(';')])
  {
    hide Scan;
    ScanBlobCloses(ts);
    assert ts + [Mark('}'), Mark(';')] == ts + [Mark('}')] + [Mark(';')];
  }

  lemma TextAsSix(data: seq<Byte>)
    ensures Text(data) ==
            ("//" + COMMENT + "\n") + BLOB_OPENS + Elements(data) + BLOB_CLOSES + LENGTH_OPENS + (Decimal(|data|)
                + ";" + "\n")
  {
    hide Elements, Decimal;
    Regroup(("//" + COMMENT + "\n") + BLOB_OPENS + Elements(data) + BLOB_CLOSES + LENGTH_OPENS, Decimal(|data|)
        + ";", "\n");
  }

  lemma Regroup(a: string, b: string, c: string)
    ensures a + b + c == a + (b + c)
  {
  }

  lemma JoinTokens(elements: seq<Token>, last: seq<Token>)
    ensures [] + BLOB_DECLARED + elements + [Mark('}')] + LENGTH_DECLARED + last ==
            BLOB_DECLARED + (elements + ([Mark('}')] + (LENGTH_DECLARED + last)))
  {
  }

  /** Printer and reader undo each other, for every byte sequence: the same bytes, and their number. */
  lemma ReadsBack(data: seq<Byte>)
    ensures ReadText(Text(data)) == Some(Blob(data, |data|))
  {
    hide Scan, Text, ElementTokens, Decimal, ReadList, Number;
    ScanText(data);
    var last := [Name(Decimal(|data|)), Mark(';')];
    var rest := LENGTH_DECLARED + last;
    var list := ElementTokens(data) + ([Mark('}')] + rest);
    ListReads(data, rest);
    NumberOfDecimal(|data|);
    FileReads(data, list, last, |data|);
  }

  lemma FileReads(data: seq<Byte>, list: seq<Token>, last: seq<Token>, n: nat)
    requires ReadList(list) == Some((data, LENGTH_DECLARED + last))
    requires |last| == 2 && last[0].Name? && Number(last[0].text) == Some(n) && last[1] == Mark(';')
    ensures ReadFile(BLOB_DECLARED + list) == Some(Blob(data, n))
  {
    hide ReadList, Number;
    assert (BLOB_DECLARED + list)[|BLOB_DECLARED|..] == list;
    assert (LENGTH_DECLARED + last)[|LENGTH_DECLARED|..] == last;
  }
}
