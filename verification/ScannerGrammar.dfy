/**
 The texts the call-argument scanner accepts: a grammar with a printer, a proof that the
 scanner undoes the printer, and a proof that it finds a closing bracket only after a
 printed text.
 */
module ScannerGrammar {
  import opened Text
  import opened Scanner

  /** The inside of a quoted string. */
  datatype Quoted = QuoteEnd | QuoteRaw(c: char, rest: Quoted) | QuoteEsc(c: char, rest: Quoted)

  /** The inside of a template literal, and of a `${...}` in it. */
  datatype Template =
    | TextEnd
    | TextRaw(c: char, rest: Template)
    | TextEsc(c: char, rest: Template)
    | TextInterp(body: Interp, rest: Template)
  datatype Interp =
    | InterpNil
    | InterpRaw(c: char, rest: Interp)
    | InterpBlock(inner: Interp, rest: Interp)
    | InterpTemplate(t: Template, rest: Interp)

  /** Source text with balanced brackets; the scanner counts brackets and does not pair their kinds. */
  datatype Code =
    | CodeEnd
    | CodeToken(token: Token, rest: Code)
    | CodeGroup(open: char, inner: Code, close: char, rest: Code)
  datatype Token =
    | Plain(c: char)
    | QuotedString(quote: char, body: Quoted)
    | TemplateString(t: Template)

  // ---- Well-formedness ----

  predicate QuotedOk(b: Quoted, quote: char) {
    match b
    case QuoteEnd => true
    case QuoteRaw(c, rest) => c != quote && c != '\\' && QuotedOk(rest, quote)
    case QuoteEsc(_, rest) => QuotedOk(rest, quote)
  }

  predicate TemplateOk(t: Template) {
    match t
    case TextEnd => true
    case TextRaw(c, rest) =>
      c != '`' && c != '\\' && (c == '$' ==> !(rest.TextRaw? && rest.c == '{')) && TemplateOk(rest)
    case TextEsc(_, rest) => TemplateOk(rest)
    case TextInterp(body, rest) => InterpOk(body) && TemplateOk(rest)
  }

  /** Braces balance and are never quoted: the scanner reads no quotes inside an interpolation. */
  predicate InterpOk(b: Interp) {
    match b
    case InterpNil => true
    case InterpRaw(c, rest) => c != '{' && c != '}' && c != '`' && InterpOk(rest)
    case InterpBlock(inner, rest) => InterpOk(inner) && InterpOk(rest)
    case InterpTemplate(t, rest) => TemplateOk(t) && InterpOk(rest)
  }

  predicate TokenOk(k: Token) {
    match k
    case Plain(c) => c !in {'\'', '"', '`', '(', ')', '[', ']', '{', '}'}
    case QuotedString(q, body) => q in {'\'', '"'} && QuotedOk(body, q)
    case TemplateString(t) => TemplateOk(t)
  }

  predicate CodeOk(e: Code) {
    match e
    case CodeEnd => true
    case CodeToken(k, rest) => TokenOk(k) && CodeOk(rest)
    case CodeGroup(o, inner, c, rest) => o in {'(', '[', '{'} && CodeOk(inner) && c in {')', ']', '}'} && CodeOk(rest)
  }

  /** No comma outside nested brackets, quotes and templates. */
  predicate NoTopComma(e: Code) {
    match e
    case CodeEnd => true
    case CodeToken(k, rest) => k != Plain(',') && NoTopComma(rest)
    case CodeGroup(_, _, _, rest) => NoTopComma(rest)
  }

  // ---- The printer ----

  function PrintQuoted(b: Quoted): string {
    match b
    case QuoteEnd => ""
    case QuoteRaw(c, rest) => [c] + PrintQuoted(rest)
    case QuoteEsc(c, rest) => ['\\', c] + PrintQuoted(rest)
  }

  function PrintTemplate(t: Template): string {
    match t
    case TextEnd => ""
    case TextRaw(c, rest) => [c] + PrintTemplate(rest)
    case TextEsc(c, rest) => ['\\', c] + PrintTemplate(rest)
    case TextInterp(body, rest) => "${" + PrintInterp(body) + "}" + PrintTemplate(rest)
  }

  function PrintInterp(b: Interp): string {
    match b
    case InterpNil => ""
    case InterpRaw(c, rest) => [c] + PrintInterp(rest)
    case InterpBlock(inner, rest) => "{" + PrintInterp(inner) + "}" + PrintInterp(rest)
    case InterpTemplate(t, rest) => "`" + PrintTemplate(t) + "`" + PrintInterp(rest)
  }

  function PrintToken(k: Token): string {
    match k
    case Plain(c) => [c]
    case QuotedString(q, body) => [q] + PrintQuoted(body) + [q]
    case TemplateString(t) => "`" + PrintTemplate(t) + "`"
  }

  function Print(e: Code): string {
    match e
    case CodeEnd => ""
    case CodeToken(k, rest) => PrintToken(k) + Print(rest)
    case CodeGroup(o, inner, c, rest) => [o] + Print(inner) + [c] + Print(rest)
  }

  // ---- Where a text of the grammar stands ----

  predicate CharAt(s: string, i: nat, c: char) {
    i < |s| && s[i] == c
  }

  function QuotedLen(b: Quoted): nat {
    match b
    case QuoteEnd => 0
    case QuoteRaw(_, rest) => 1 + QuotedLen(rest)
    case QuoteEsc(_, rest) => 2 + QuotedLen(rest)
  }

  function TemplateLen(t: Template): nat {
    match t
    case TextEnd => 0
    case TextRaw(_, rest) => 1 + TemplateLen(rest)
    case TextEsc(_, rest) => 2 + TemplateLen(rest)
    case TextInterp(body, rest) => 3 + InterpLen(body) + TemplateLen(rest)
  }

  function InterpLen(b: Interp): nat {
    match b
    case InterpNil => 0
    case InterpRaw(_, rest) => 1 + InterpLen(rest)
    case InterpBlock(inner, rest) => 2 + InterpLen(inner) + InterpLen(rest)
    case InterpTemplate(t, rest) => 2 + TemplateLen(t) + InterpLen(rest)
  }

  function TokenLen(k: Token): nat {
    match k
    case Plain(_) => 1
    case QuotedString(_, body) => 2 + QuotedLen(body)
    case TemplateString(t) => 2 + TemplateLen(t)
  }

  function CodeLen(e: Code): nat {
    match e
    case CodeEnd => 0
    case CodeToken(k, rest) => TokenLen(k) + CodeLen(rest)
    case CodeGroup(_, inner, _, rest) => 2 + CodeLen(inner) + CodeLen(rest)
  }

  predicate QuotedAt(s: string, i: nat, b: Quoted)
    decreases b
  {
    match b
    case QuoteEnd => true
    case QuoteRaw(c, rest) => CharAt(s, i, c) && QuotedAt(s, i + 1, rest)
    case QuoteEsc(c, rest) => CharAt(s, i, '\\') && CharAt(s, i + 1, c) && QuotedAt(s, i + 2, rest)
  }

  predicate TemplateAt(s: string, i: nat, t: Template)
    decreases t
  {
    match t
    case TextEnd => true
    case TextRaw(c, rest) => CharAt(s, i, c) && TemplateAt(s, i + 1, rest)
    case TextEsc(c, rest) => CharAt(s, i, '\\') && CharAt(s, i + 1, c) && TemplateAt(s, i + 2, rest)
    case TextInterp(body, rest) =>
      && CharAt(s, i, '$') && CharAt(s, i + 1, '{') && InterpAt(s, i + 2, body)
      && CharAt(s, i + 2 + InterpLen(body), '}') && TemplateAt(s, i + 3 + InterpLen(body), rest)
  }

  predicate InterpAt(s: string, i: nat, b: Interp)
    decreases b
  {
    match b
    case InterpNil => true
    case InterpRaw(c, rest) => CharAt(s, i, c) && InterpAt(s, i + 1, rest)
    case InterpBlock(inner, rest) =>
      && CharAt(s, i, '{') && InterpAt(s, i + 1, inner)
      && CharAt(s, i + 1 + InterpLen(inner), '}') && InterpAt(s, i + 2 + InterpLen(inner), rest)
    case InterpTemplate(t, rest) =>
      && CharAt(s, i, '`') && TemplateAt(s, i + 1, t)
      && CharAt(s, i + 1 + TemplateLen(t), '`') && InterpAt(s, i + 2 + TemplateLen(t), rest)
  }

  predicate TokenAt(s: string, i: nat, k: Token) {
    match k
    case Plain(c) => CharAt(s, i, c)
    case QuotedString(q, body) =>
      CharAt(s, i, q) && QuotedAt(s, i + 1, body) && CharAt(s, i + 1 + QuotedLen(body), q)
    case TemplateString(t) =>
      CharAt(s, i, '`') && TemplateAt(s, i + 1, t) && CharAt(s, i + 1 + TemplateLen(t), '`')
  }

  predicate CodeAt(s: string, i: nat, e: Code)
    decreases e
  {
    match e
    case CodeEnd => true
    case CodeToken(k, rest) => TokenAt(s, i, k) && CodeAt(s, i + TokenLen(k), rest)
    case CodeGroup(o, inner, c, rest) =>
      && CharAt(s, i, o) && CodeAt(s, i + 1, inner)
      && CharAt(s, i + 1 + CodeLen(inner), c) && CodeAt(s, i + 2 + CodeLen(inner), rest)
  }

  // ---- One constructor at a time ----

  lemma TokenFacts(s: string, i: nat, k: Token, rest: Code)
    ensures
      var e := CodeToken(k, rest);
      && (CodeAt(s, i, e) <==> TokenAt(s, i, k) && CodeAt(s, i + TokenLen(k), rest))
      && CodeLen(e) == TokenLen(k) + CodeLen(rest)
      && (CodeOk(e) <==> TokenOk(k) && CodeOk(rest))
      && (NoTopComma(e) <==> k != Plain(',') && NoTopComma(rest))
  {
    hide TokenAt, TokenLen, TokenOk;
  }

  lemma GroupFacts(s: string, i: nat, o: char, inner: Code, c: char, rest: Code)
    ensures
      var e := CodeGroup(o, inner, c, rest);
      && (CodeAt(s, i, e) <==>
          && CharAt(s, i, o) && CodeAt(s, i + 1, inner)
          && CharAt(s, i + 1 + CodeLen(inner), c) && CodeAt(s, i + 2 + CodeLen(inner), rest))
      && CodeLen(e) == 2 + CodeLen(inner) + CodeLen(rest)
      && (CodeOk(e) <==> IsOpen(o) && CodeOk(inner) && IsClose(c) && CodeOk(rest))
      && (NoTopComma(e) <==> NoTopComma(rest))
  {
    hide TokenAt, TokenLen, TokenOk;
  }

  lemma BlockAt(s: string, i: nat, inner: Interp, rest: Interp)
    ensures InterpAt(s, i, InterpBlock(inner, rest)) <==>
      && CharAt(s, i, '{') && InterpAt(s, i + 1, inner)
      && CharAt(s, i + 1 + InterpLen(inner), '}') && InterpAt(s, i + 2 + InterpLen(inner), rest)
  {
    hide TemplateAt, InterpLen, InterpOk, CharAt;
  }

  lemma BlockFacts(s: string, i: nat, inner: Interp, rest: Interp)
    ensures
      var b := InterpBlock(inner, rest);
      && (InterpAt(s, i, b) <==>
          && CharAt(s, i, '{') && InterpAt(s, i + 1, inner)
          && CharAt(s, i + 1 + InterpLen(inner), '}') && InterpAt(s, i + 2 + InterpLen(inner), rest))
      && InterpLen(b) == 2 + InterpLen(inner) + InterpLen(rest)
      && (InterpOk(b) <==> InterpOk(inner) && InterpOk(rest))
  {
    hide InterpAt, TemplateLen, TemplateOk;
    BlockAt(s, i, inner, rest);
  }

  lemma InterpTemplateFacts(s: string, i: nat, t: Template, rest: Interp)
    ensures
      var b := InterpTemplate(t, rest);
      && (InterpAt(s, i, b) <==>
          && CharAt(s, i, '`') && TemplateAt(s, i + 1, t)
          && CharAt(s, i + 1 + TemplateLen(t), '`') && InterpAt(s, i + 2 + TemplateLen(t), rest))
      && InterpLen(b) == 2 + TemplateLen(t) + InterpLen(rest)
      && (InterpOk(b) <==> TemplateOk(t) && InterpOk(rest))
  {
    hide TemplateAt, TemplateLen, TemplateOk;
  }

  lemma InterpNilFacts(s: string, i: nat)
    ensures InterpAt(s, i, InterpNil) && InterpLen(InterpNil) == 0 && InterpOk(InterpNil)
  {
  }

  lemma CodeEndFacts(s: string, i: nat)
    ensures CodeAt(s, i, CodeEnd) && CodeLen(CodeEnd) == 0 && CodeOk(CodeEnd) && NoTopComma(CodeEnd)
  {
  }

  lemma InterpRawFacts(s: string, i: nat, c: char, rest: Interp)
    ensures
      var b := InterpRaw(c, rest);
      && (InterpAt(s, i, b) <==> CharAt(s, i, c) && InterpAt(s, i + 1, rest))
      && InterpLen(b) == 1 + InterpLen(rest)
      && (InterpOk(b) <==> c != '{' && c != '}' && c != '`' && InterpOk(rest))
  {
    hide TemplateAt, TemplateLen, TemplateOk;
  }

  // ---- Standing there is being printed there ----

  lemma OccursChar(s: string, i: nat, c: char)
    ensures OccursAt(s, [c], i) <==> CharAt(s, i, c)
  {
    if i < |s| { assert s[i..i + 1] == [s[i]]; }
  }

  lemma OccursNothing(s: string, i: nat)
    requires i <= |s|
    ensures OccursAt(s, "", i)
  {
  }

  /** Two delimiters around a text, and what follows. */
  lemma OccursEnclosed(s: string, i: nat, open: string, inside: string, close: char, rest: string)
    ensures OccursAt(s, open + inside + [close] + rest, i) <==>
      && OccursAt(s, open, i) && OccursAt(s, inside, i + |open|)
      && CharAt(s, i + |open| + |inside|, close) && OccursAt(s, rest, i + |open| + |inside| + 1)
  {
    OccursApart(s, i, open + inside + [close], rest);
    OccursApart(s, i, open + inside, [close]);
    OccursApart(s, i, open, inside);
    OccursChar(s, i + |open| + |inside|, close);
  }

  lemma OccursPair(s: string, i: nat, c: char, d: char)
    ensures OccursAt(s, [c, d], i) <==> CharAt(s, i, c) && CharAt(s, i + 1, d)
  {
    assert [c, d] == [c] + [d];
    OccursApart(s, i, [c], [d]);
    OccursChar(s, i, c);
    OccursChar(s, i + 1, d);
  }

  lemma {:induction false} QuotedPrinted(s: string, i: nat, b: Quoted)
    requires i <= |s|
    ensures |PrintQuoted(b)| == QuotedLen(b)
    ensures QuotedAt(s, i, b) <==> OccursAt(s, PrintQuoted(b), i)
    decreases b
  {
    hide OccursAt;
    match b
    case QuoteEnd => OccursNothing(s, i);
    case QuoteRaw(c, rest) =>
      OccursApart(s, i, [c], PrintQuoted(rest));
      OccursChar(s, i, c);
      QuotedPrinted(s, if i < |s| then i + 1 else i, rest);
    case QuoteEsc(c, rest) =>
      OccursApart(s, i, ['\\', c], PrintQuoted(rest));
      OccursPair(s, i, '\\', c);
      QuotedPrinted(s, if i + 1 < |s| then i + 2 else i, rest);
  }

  lemma {:induction false} TemplatePrinted(s: string, i: nat, t: Template)
    requires i <= |s|
    ensures |PrintTemplate(t)| == TemplateLen(t)
    ensures TemplateAt(s, i, t) <==> OccursAt(s, PrintTemplate(t), i)
    decreases t
  {
    hide OccursAt, InterpAt, InterpLen, PrintInterp;
    match t
    case TextEnd => OccursNothing(s, i);
    case TextRaw(c, rest) =>
      OccursApart(s, i, [c], PrintTemplate(rest));
      OccursChar(s, i, c);
      TemplatePrinted(s, if i < |s| then i + 1 else i, rest);
    case TextEsc(c, rest) =>
      OccursApart(s, i, ['\\', c], PrintTemplate(rest));
      OccursPair(s, i, '\\', c);
      TemplatePrinted(s, if i + 1 < |s| then i + 2 else i, rest);
    case TextInterp(body, rest) =>
      OccursEnclosed(s, i, "${", PrintInterp(body), '}', PrintTemplate(rest));
      OccursPair(s, i, '$', '{');
      InterpPrinted(s, if i + 1 < |s| then i + 2 else i, body);
      var k := i + 3 + InterpLen(body);
      TemplatePrinted(s, if k <= |s| then k else i, rest);
  }

  lemma InterpPrints(b: Interp)
    ensures
      PrintInterp(b) ==
        match b
        case InterpNil => ""
        case InterpRaw(c, rest) => [c] + PrintInterp(rest)
        case InterpBlock(inner, rest) => "{" + PrintInterp(inner) + "}" + PrintInterp(rest)
        case InterpTemplate(t, rest) => "`" + PrintTemplate(t) + "`" + PrintInterp(rest)
  {
    hide PrintTemplate;
  }

  lemma {:induction false} InterpPrinted(s: string, i: nat, b: Interp)
    requires i <= |s|
    ensures |PrintInterp(b)| == InterpLen(b)
    ensures InterpAt(s, i, b) <==> OccursAt(s, PrintInterp(b), i)
    decreases b, 1
  {
    hide OccursAt, TemplateAt, TemplateLen, PrintTemplate, PrintInterp, InterpAt, InterpLen;
    InterpPrints(b);
    match b
    case InterpNil =>
      OccursNothing(s, i);
      InterpNilFacts(s, i);
    case InterpRaw(c, rest) =>
      InterpRawFacts(s, i, c, rest);
      OccursApart(s, i, [c], PrintInterp(rest));
      OccursChar(s, i, c);
      InterpPrinted(s, if i < |s| then i + 1 else i, rest);
    case InterpBlock(inner, rest) => BlockPrinted(s, i, inner, rest);
    case InterpTemplate(t, rest) => InterpTemplatePrinted(s, i, t, rest);
  }

  lemma {:induction false} BlockPrinted(s: string, i: nat, inner: Interp, rest: Interp)
    requires i <= |s|
    ensures
      var b := InterpBlock(inner, rest);
      |PrintInterp(b)| == InterpLen(b) && (InterpAt(s, i, b) <==> OccursAt(s, PrintInterp(b), i))
    decreases InterpBlock(inner, rest), 0
  {
    hide OccursAt, PrintInterp, InterpAt, InterpLen;
    InterpPrints(InterpBlock(inner, rest));
    BlockFacts(s, i, inner, rest);
    OccursEnclosed(s, i, "{", PrintInterp(inner), '}', PrintInterp(rest));
    OccursChar(s, i, '{');
    InterpPrinted(s, if i < |s| then i + 1 else i, inner);
    var k := i + 2 + InterpLen(inner);
    InterpPrinted(s, if k <= |s| then k else i, rest);
  }

  lemma {:induction false} InterpTemplatePrinted(s: string, i: nat, t: Template, rest: Interp)
    requires i <= |s|
    ensures
      var b := InterpTemplate(t, rest);
      |PrintInterp(b)| == InterpLen(b) && (InterpAt(s, i, b) <==> OccursAt(s, PrintInterp(b), i))
    decreases InterpTemplate(t, rest), 0
  {
    hide OccursAt, TemplateAt, TemplateLen, PrintTemplate, PrintInterp, InterpAt, InterpLen;
    InterpPrints(InterpTemplate(t, rest));
    InterpTemplateFacts(s, i, t, rest);
    OccursEnclosed(s, i, "`", PrintTemplate(t), '`', PrintInterp(rest));
    OccursChar(s, i, '`');
    TemplatePrinted(s, if i < |s| then i + 1 else i, t);
    var k := i + 2 + TemplateLen(t);
    InterpPrinted(s, if k <= |s| then k else i, rest);
  }

  /** A text between two equal delimiters. */
  lemma EnclosedPrinted(s: string, i: nat, q: char, inside: string)
    requires i <= |s|
    ensures
      var n := |inside|;
      OccursAt(s, [q] + inside + [q], i) <==>
        CharAt(s, i, q) && OccursAt(s, inside, i + 1) && CharAt(s, i + 1 + n, q)
  {
    hide OccursAt;
    OccursApart(s, i, [q] + inside, [q]);
    OccursApart(s, i, [q], inside);
    OccursChar(s, i, q);
    OccursChar(s, i + 1 + |inside|, q);
  }

  lemma TokenPrinted(s: string, i: nat, k: Token)
    requires i <= |s|
    ensures |PrintToken(k)| == TokenLen(k)
    ensures TokenAt(s, i, k) <==> OccursAt(s, PrintToken(k), i)
    ensures TokenAt(s, i, k) ==> i + TokenLen(k) <= |s|
  {
    hide OccursAt, QuotedAt, TemplateAt, PrintQuoted, PrintTemplate, QuotedLen, TemplateLen;
    match k
    case Plain(c) =>
      OccursChar(s, i, c);
    case QuotedString(q, body) =>
      EnclosedPrinted(s, i, q, PrintQuoted(body));
      QuotedPrinted(s, if i < |s| then i + 1 else i, body);
    case TemplateString(t) =>
      EnclosedPrinted(s, i, '`', PrintTemplate(t));
      TemplatePrinted(s, if i < |s| then i + 1 else i, t);
  }

  lemma {:induction false} CodePrinted(s: string, i: nat, e: Code)
    requires i <= |s|
    ensures |Print(e)| == CodeLen(e)
    ensures CodeAt(s, i, e) <==> OccursAt(s, Print(e), i)
    decreases e
  {
    hide OccursAt, TokenAt, TokenLen, PrintToken;
    match e
    case CodeEnd => OccursNothing(s, i);
    case CodeToken(k, rest) =>
      OccursApart(s, i, PrintToken(k), Print(rest));
      TokenPrinted(s, i, k);
      var m := i + TokenLen(k);
      CodePrinted(s, if m <= |s| then m else i, rest);
    case CodeGroup(o, inner, c, rest) =>
      OccursEnclosed(s, i, [o], Print(inner), c, Print(rest));
      OccursChar(s, i, o);
      CodePrinted(s, if i < |s| then i + 1 else i, inner);
      var m := i + 2 + CodeLen(inner);
      CodePrinted(s, if m <= |s| then m else i, rest);
  }

  // ---- The scanner undoes the printer ----

  lemma {:induction false} QuotedScans(s: string, i: nat, b: Quoted, quote: char)
    requires QuotedOk(b, quote) && quote != '\\'
    requires QuotedAt(s, i, b) && CharAt(s, i + QuotedLen(b), quote)
    ensures QuotedEnd(s, i, quote) == i + QuotedLen(b) + 1
    decreases b
  {
    match b
    case QuoteEnd =>
    case QuoteRaw(_, rest) => QuotedScans(s, i + 1, rest, quote);
    case QuoteEsc(_, rest) => QuotedScans(s, i + 2, rest, quote);
  }

  lemma {:induction false} TemplateScans(s: string, i: nat, t: Template)
    requires TemplateOk(t) && TemplateAt(s, i, t) && CharAt(s, i + TemplateLen(t), '`')
    ensures TemplateEnd(s, i) == i + TemplateLen(t) + 1
    decreases t
  {
    hide InterpEnd, InterpAt, InterpOk, InterpLen;
    match t
    case TextEnd =>
    case TextRaw(_, rest) => TemplateScans(s, i + 1, rest);
    case TextEsc(_, rest) => TemplateScans(s, i + 2, rest);
    case TextInterp(body, rest) =>
      InterpolationFacts(s, i, body, rest);
      hide TemplateAt, TemplateOk, TemplateLen, TemplateEnd;
      InterpScans(s, i + 2, body, 1);
      InterpCloses(s, i + 2 + InterpLen(body));
      TemplateScans(s, i + 3 + InterpLen(body), rest);
  }

  lemma InterpolationFacts(s: string, i: nat, body: Interp, rest: Template)
    requires TemplateOk(TextInterp(body, rest)) && TemplateAt(s, i, TextInterp(body, rest))
    ensures InterpOk(body) && InterpAt(s, i + 2, body) && CharAt(s, i + 2 + InterpLen(body), '}')
    ensures TemplateOk(rest) && TemplateAt(s, i + 3 + InterpLen(body), rest)
    ensures TemplateLen(TextInterp(body, rest)) == 3 + InterpLen(body) + TemplateLen(rest)
    ensures TemplateEnd(s, i) == TemplateEnd(s, InterpEnd(s, i + 2, 1))
  {
    hide InterpEnd, InterpAt, InterpOk, InterpLen;
  }

  lemma InterpCloses(s: string, i: nat)
    requires CharAt(s, i, '}')
    ensures InterpEnd(s, i, 1) == i + 1
  {
  }

  lemma {:induction false} InterpScans(s: string, i: nat, b: Interp, depth: nat)
    requires InterpOk(b) && InterpAt(s, i, b) && depth > 0
    ensures InterpEnd(s, i, depth) == InterpEnd(s, i + InterpLen(b), depth)
    decreases b
  {
    hide TemplateEnd, TemplateAt, TemplateOk, TemplateLen, InterpAt, InterpOk, InterpLen, InterpEnd;
    match b
    case InterpNil => InterpNilFacts(s, i);
    case InterpRaw(c, rest) =>
      InterpRawFacts(s, i, c, rest);
      InterpStep(s, i, depth);
      InterpScans(s, i + 1, rest, depth);
    case InterpBlock(inner, rest) =>
      BlockFacts(s, i, inner, rest);
      InterpStep(s, i, depth);
      InterpScans(s, i + 1, inner, depth + 1);
      InterpStep(s, i + 1 + InterpLen(inner), depth + 1);
      InterpScans(s, i + 2 + InterpLen(inner), rest, depth);
    case InterpTemplate(t, rest) =>
      InterpTemplateFacts(s, i, t, rest);
      InterpStep(s, i, depth);
      TemplateScans(s, i + 1, t);
      InterpScans(s, i + 2 + TemplateLen(t), rest, depth);
  }

  lemma TokenScans(s: string, i: nat, k: Token)
    requires TokenOk(k) && TokenAt(s, i, k)
    ensures i < |s| && TokenEnd(s, i) == i + TokenLen(k) && !IsOpen(s[i]) && !IsClose(s[i])
    ensures s[i] == ',' <==> k == Plain(',')
  {
    match k
    case Plain(_) =>
    case QuotedString(q, body) => QuotedScans(s, i + 1, body, q);
    case TemplateString(t) => TemplateScans(s, i + 1, t);
  }

  lemma ScanStep(s: string, i: nat, depth: nat, comma: Option<nat>)
    requires i < |s| && depth > 0 && !(IsClose(s[i]) && depth == 1)
    requires s[i] != ',' || depth > 1 || comma.Some?
    ensures Scan(s, i, depth, comma) == Scan(s, TokenEnd(s, i), BracketDepth(s[i], depth), comma)
  {
  }

  lemma BracketStep(s: string, i: nat, depth: nat, comma: Option<nat>)
    requires i < |s| && depth > 0 && (IsOpen(s[i]) || (IsClose(s[i]) && depth > 1))
    ensures Scan(s, i, depth, comma) == Scan(s, i + 1, BracketDepth(s[i], depth), comma)
  {
  }

  /** Printed code leaves the depth as it was, and shows no first comma unless it has one at the top. */
  lemma {:induction false} CodeScans(s: string, i: nat, e: Code, depth: nat, comma: Option<nat>)
    requires CodeOk(e) && CodeAt(s, i, e) && depth > 0
    requires depth > 1 || comma.Some? || NoTopComma(e)
    ensures Scan(s, i, depth, comma) == Scan(s, i + CodeLen(e), depth, comma)
    decreases e
  {
    hide Scan, TokenAt, TokenOk, TokenEnd, CodeAt, CodeLen, CodeOk, NoTopComma;
    match e
    case CodeEnd => CodeEndFacts(s, i);
    case CodeToken(k, rest) =>
      TokenFacts(s, i, k, rest);
      TokenScans(s, i, k);
      ScanStep(s, i, depth, comma);
      CodeScans(s, i + TokenLen(k), rest, depth, comma);
    case CodeGroup(o, inner, c, rest) =>
      GroupFacts(s, i, o, inner, c, rest);
      BracketStep(s, i, depth, comma);
      CodeScans(s, i + 1, inner, depth + 1, comma);
      BracketStep(s, i + 1 + CodeLen(inner), depth + 1, comma);
      CodeScans(s, i + 2 + CodeLen(inner), rest, depth, comma);
  }

  /** An argument list: the first argument, and what follows its comma. */
  datatype Args = Args(first: Code, rest: Option<Code>)

  predicate ArgsOk(a: Args) {
    CodeOk(a.first) && NoTopComma(a.first) && (a.rest.Some? ==> CodeOk(a.rest.value))
  }

  function PrintArgs(a: Args): string {
    if a.rest.Some? then Print(a.first) + [','] + Print(a.rest.value) else Print(a.first)
  }

  function ArgsLen(a: Args): nat {
    CodeLen(a.first) + (if a.rest.Some? then 1 + CodeLen(a.rest.value) else 0)
  }

  predicate ArgsAt(s: string, i: nat, a: Args) {
    && CodeAt(s, i, a.first)
    && (a.rest.Some? ==> CharAt(s, i + CodeLen(a.first), ',') && CodeAt(s, i + CodeLen(a.first) + 1, a.rest.value))
  }

  lemma ArgsPrinted(s: string, i: nat, a: Args)
    requires i <= |s|
    ensures |PrintArgs(a)| == ArgsLen(a)
    ensures ArgsAt(s, i, a) <==> OccursAt(s, PrintArgs(a), i)
  {
    hide OccursAt, CodeAt, CodeLen, Print;
    CodePrinted(s, i, a.first);
    if a.rest.Some? {
      var k := i + CodeLen(a.first);
      OccursApart(s, i, Print(a.first) + [','], Print(a.rest.value));
      OccursApart(s, i, Print(a.first), [',']);
      OccursChar(s, k, ',');
      CodePrinted(s, if k < |s| then k + 1 else i, a.rest.value);
    }
  }

  lemma ScanComma(s: string, k: nat)
    requires CharAt(s, k, ',')
    ensures Scan(s, k, 1, None) == Scan(s, k + 1, 1, Some(k))
  {
  }

  lemma ScanCloses(s: string, i: nat, comma: Option<nat>)
    requires i < |s| && IsClose(s[i])
    ensures Scan(s, i, 1, comma) == Closed(if comma.Some? then comma.value else i, i)
  {
  }

  lemma ArgsScan(s: string, i: nat, a: Args)
    requires ArgsOk(a) && ArgsAt(s, i, a) && i + ArgsLen(a) < |s| && IsClose(s[i + ArgsLen(a)])
    ensures Scan(s, i, 1, None) == Closed(i + CodeLen(a.first), i + ArgsLen(a))
  {
    hide Scan, CodeAt, CodeOk, CodeLen, NoTopComma;
    var k := i + CodeLen(a.first);
    CodeScans(s, i, a.first, 1, None);
    if a.rest.Some? {
      ScanComma(s, k);
      CodeScans(s, k + 1, a.rest.value, 1, Some(k));
      ScanCloses(s, i + ArgsLen(a), Some(k));
    } else {
      ScanCloses(s, i + ArgsLen(a), None);
    }
  }

  /** The arguments that start at `start` are `a`, and a closing bracket follows them. */
  ghost predicate IsCallWith(s: string, start: nat, a: Args) {
    && ArgsOk(a)
    && OccursAt(s, PrintArgs(a), start)
    && start + |PrintArgs(a)| < |s| && s[start + |PrintArgs(a)|] in {')', ']', '}'}
  }

  /**
   The scanner undoes the printer, wherever the call stands and whatever follows it: it returns the first
   argument without the white space around it, and the whole list as it stands.
   */
  lemma ScannerInvertsPrinter(s: string, start: nat, a: Args)
    requires IsCallWith(s, start, a)
    ensures Scan(s, start, 1, None).Closed?
    ensures
      var (first, span) := FirstArgAndSpanOf(s, start);
      TrimOf(Print(a.first), first) && first == TrimSpace(Print(a.first)) && span == PrintArgs(a)
  {
    hide Scan, CodeAt, CodeOk, NoTopComma, CodeLen, Print, TrimSpace, TrimOf;
    ArgsPrinted(s, start, a);
    CodePrinted(s, start, a.first);
    ArgsScan(s, start, a);
    TrimSpaceIs(Print(a.first), TrimSpace(Print(a.first)));
  }

  /** An argument printed between blanks comes back without them. */
  lemma BlanksAreTrimmed(s: string, start: nat, a: Args, p: string, core: string, q: string)
    requires IsCallWith(s, start, a) && Print(a.first) == p + core + q && Blank(p) && Blank(q)
    requires core != "" && !IsSpace(core[0]) && !IsSpace(core[|core| - 1])
    ensures FirstArgAndSpanOf(s, start) == (core, PrintArgs(a))
  {
    hide IsCallWith, FirstArgAndSpanOf, Print, TrimSpace;
    ScannerInvertsPrinter(s, start, a);
    TrimAround(p, core, q);
  }

  // ---- Nothing else is accepted ----

  lemma {:induction false} QuotedParses(s: string, i: nat, quote: char) returns (b: Quoted)
    requires QuotedEnd(s, i, quote) < |s|
    ensures QuotedOk(b, quote) && QuotedAt(s, i, b) && CharAt(s, i + QuotedLen(b), quote)
    ensures QuotedEnd(s, i, quote) == i + QuotedLen(b) + 1
    decreases |s| - i
  {
    if s[i] == '\\' {
      var rest := QuotedParses(s, i + 2, quote);
      b := QuoteEsc(s[i + 1], rest);
    } else if s[i] == quote {
      b := QuoteEnd;
    } else {
      var rest := QuotedParses(s, i + 1, quote);
      b := QuoteRaw(s[i], rest);
    }
  }

  /** Closing d + e levels is closing d levels and then e more. */
  lemma {:induction false} InterpEndSplits(s: string, i: nat, d: nat, e: nat)
    ensures InterpEnd(s, i, d + e) == InterpEnd(s, InterpEnd(s, i, d), e)
    decreases |s| - i
  {
    if i < |s| && d > 0 {
      InterpEndSplits(s, if s[i] == '`' then TemplateEnd(s, i + 1) else i + 1, BraceDepth(s[i], d), e);
    }
  }

  lemma {:induction false} TemplateParses(s: string, i: nat) returns (t: Template)
    requires TemplateEnd(s, i) < |s|
    ensures TemplateOk(t) && TemplateAt(s, i, t) && CharAt(s, i + TemplateLen(t), '`')
    ensures TemplateEnd(s, i) == i + TemplateLen(t) + 1
    decreases |s| - i, 1
  {
    hide TemplateEnd, InterpEnd, InterpAt, InterpOk, InterpLen;
    TemplateStep(s, i);
    if s[i] == '\\' {
      var rest := TemplateParses(s, i + 2);
      t := TextEsc(s[i + 1], rest);
    } else if s[i] == '`' {
      t := TextEnd;
    } else if s[i] == '$' && i + 1 < |s| && s[i + 1] == '{' {
      var rest := TemplateParses(s, InterpEnd(s, i + 2, 1));
      var body := InterpParses(s, i + 2);
      t := TextInterp(body, rest);
    } else {
      var rest := TemplateParses(s, i + 1);
      t := TextRaw(s[i], rest);
    }
  }

  lemma {:induction false} InterpParses(s: string, i: nat) returns (b: Interp)
    requires InterpEnd(s, i, 1) < |s|
    ensures InterpOk(b) && InterpAt(s, i, b) && CharAt(s, i + InterpLen(b), '}')
    ensures InterpEnd(s, i, 1) == i + InterpLen(b) + 1
    decreases |s| - i, 0
  {
    hide TemplateEnd, TemplateAt, TemplateOk, TemplateLen, InterpEnd, InterpAt, InterpOk, InterpLen;
    InterpStep(s, i, 1);
    InterpDone(s, i + 1, 0);
    if s[i] == '{' {
      InterpEndSplits(s, i + 1, 1, 1);
      var m := InterpEnd(s, i + 1, 1);
      var inner := InterpParses(s, i + 1);
      var rest := InterpParses(s, m);
      BlockFacts(s, i, inner, rest);
      b := InterpBlock(inner, rest);
    } else if s[i] == '}' {
      InterpNilFacts(s, i);
      b := InterpNil;
    } else if s[i] == '`' {
      var m := TemplateEnd(s, i + 1);
      var t := TemplateParses(s, i + 1);
      var rest := InterpParses(s, m);
      InterpTemplateFacts(s, i, t, rest);
      b := InterpTemplate(t, rest);
    } else {
      var rest := InterpParses(s, i + 1);
      InterpRawFacts(s, i, s[i], rest);
      b := InterpRaw(s[i], rest);
    }
  }

  /** Two levels close one after the other, whatever comma was seen before. */
  lemma {:induction false} ScanSplits(s: string, i: nat, d: nat, e: nat, x: Option<nat>)
    requires d > 0 && e > 0 && Scan(s, i, d + e, x).Closed?
    ensures Scan(s, i, d, Some(0)).Closed?
    ensures Scan(s, i, d + e, x) == Scan(s, Scan(s, i, d, Some(0)).close + 1, e, x)
    decreases |s| - i
  {
    if !(IsClose(s[i]) && d == 1) {
      assert BracketDepth(s[i], d + e) == BracketDepth(s[i], d) + e;
      ScanSplits(s, TokenEnd(s, i), BracketDepth(s[i], d), e, x);
    }
  }

  lemma TokenParses(s: string, i: nat) returns (k: Token)
    requires i < |s| && TokenEnd(s, i) < |s| && !IsOpen(s[i]) && !IsClose(s[i])
    ensures TokenOk(k) && TokenAt(s, i, k) && i + TokenLen(k) == TokenEnd(s, i)
    ensures s[i] == ',' <==> k == Plain(',')
  {
    if IsQuote(s[i]) {
      var body := QuotedParses(s, i + 1, s[i]);
      k := QuotedString(s[i], body);
    } else if s[i] == '`' {
      var t := TemplateParses(s, i + 1);
      k := TemplateString(t);
    } else {
      k := Plain(s[i]);
    }
  }

  /** With a comma already seen, a closed scan has run over printed code. */
  lemma {:induction false} CodeParses(s: string, i: nat, x: nat) returns (e: Code)
    requires Scan(s, i, 1, Some(x)).Closed?
    ensures CodeOk(e) && CodeAt(s, i, e) && i + CodeLen(e) == Scan(s, i, 1, Some(x)).close
    decreases |s| - i
  {
    hide QuotedEnd, TemplateEnd, InterpEnd, TokenAt, TokenOk, TokenLen, CodeAt, CodeLen, CodeOk;
    if IsClose(s[i]) {
      CodeEndFacts(s, i);
      e := CodeEnd;
    } else if IsOpen(s[i]) {
      BracketStep(s, i, 1, Some(x));
      ScanSplits(s, i + 1, 1, 1, Some(x));
      var m := Scan(s, i + 1, 1, Some(0)).close;
      var inner := CodeParses(s, i + 1, 0);
      var rest := CodeParses(s, m + 1, x);
      GroupFacts(s, i, s[i], inner, s[m], rest);
      e := CodeGroup(s[i], inner, s[m], rest);
    } else {
      ScanStep(s, i, 1, Some(x));
      var k := TokenParses(s, i);
      var rest := CodeParses(s, TokenEnd(s, i), x);
      TokenFacts(s, i, k, rest);
      e := CodeToken(k, rest);
    }
  }

  lemma ArgsWithout(s: string, i: nat, rest: Option<Code>) returns (a: Args)
    requires i <= |s|
    requires rest.Some? ==> CharAt(s, i, ',') && CodeOk(rest.value) && CodeAt(s, i + 1, rest.value)
    ensures ArgsOk(a) && ArgsAt(s, i, a) && ArgsLen(a) == if rest.Some? then 1 + CodeLen(rest.value) else 0
  {
    CodeEndFacts(s, i);
    hide CodeAt, CodeLen, CodeOk, NoTopComma;
    a := Args(CodeEnd, rest);
  }

  lemma CommaStep(s: string, i: nat)
    requires CharAt(s, i, ',')
    ensures Scan(s, i, 1, None) == Scan(s, i + 1, 1, Some(i))
  {
  }

  lemma ArgsWithGroup(s: string, i: nat, m: nat, inner: Code, b: Args) returns (a: Args)
    requires i < m < |s| && IsOpen(s[i]) && IsClose(s[m])
    requires CodeOk(inner) && CodeAt(s, i + 1, inner) && i + 1 + CodeLen(inner) == m
    requires ArgsOk(b) && ArgsAt(s, m + 1, b)
    ensures ArgsOk(a) && ArgsAt(s, i, a) && i + ArgsLen(a) == m + 1 + ArgsLen(b)
  {
    hide CodeAt, CodeLen, CodeOk, NoTopComma;
    GroupFacts(s, i, s[i], inner, s[m], b.first);
    a := Args(CodeGroup(s[i], inner, s[m], b.first), b.rest);
  }

  lemma ArgsWithToken(s: string, i: nat, k: Token, b: Args) returns (a: Args)
    requires TokenOk(k) && TokenAt(s, i, k) && k != Plain(',') && ArgsOk(b) && ArgsAt(s, i + TokenLen(k), b)
    ensures ArgsOk(a) && ArgsAt(s, i, a) && i + ArgsLen(a) == i + TokenLen(k) + ArgsLen(b)
  {
    hide TokenOk, TokenAt, TokenLen, CodeAt, CodeLen, CodeOk, NoTopComma;
    TokenFacts(s, i, k, b.first);
    a := Args(CodeToken(k, b.first), b.rest);
  }

  /** A closed scan with no comma yet has run over a printed argument list. */
  lemma {:induction false} ArgsParse(s: string, i: nat) returns (a: Args)
    requires Scan(s, i, 1, None).Closed?
    ensures ArgsOk(a) && ArgsAt(s, i, a) && i + ArgsLen(a) == Scan(s, i, 1, None).close
    decreases |s| - i
  {
    hide TokenEnd, TokenAt, TokenOk, TokenLen, CodeAt, CodeLen, CodeOk, ArgsOk, ArgsAt, ArgsLen;
    if IsClose(s[i]) {
      a := ArgsWithout(s, i, None);
    } else if s[i] == ',' {
      CommaStep(s, i);
      var rest := CodeParses(s, i + 1, i);
      a := ArgsWithout(s, i, Some(rest));
    } else if IsOpen(s[i]) {
      BracketStep(s, i, 1, None);
      ScanSplits(s, i + 1, 1, 1, None);
      var m := Scan(s, i + 1, 1, Some(0)).close;
      var inner := CodeParses(s, i + 1, 0);
      var b := ArgsParse(s, m + 1);
      a := ArgsWithGroup(s, i, m, inner, b);
    } else {
      ScanStep(s, i, 1, None);
      var k := TokenParses(s, i);
      var b := ArgsParse(s, TokenEnd(s, i));
      a := ArgsWithToken(s, i, k, b);
    }
  }

  /**
   The scanner closes a call exactly when the text at `start` is a printed argument list with
   a closing bracket behind it, and then it returns that list and its first argument. In any other
   text it returns the whole rest, and the rest trimmed.
   */
  lemma ScannerAcceptsExactlyCalls(s: string, start: nat)
    requires start <= |s|
    ensures Scan(s, start, 1, None).Closed? <==> exists a :: IsCallWith(s, start, a)
    ensures forall a :: IsCallWith(s, start, a) ==>
      TrimOf(Print(a.first), FirstArgAndSpanOf(s, start).0) && FirstArgAndSpanOf(s, start).1 == PrintArgs(a)
    ensures (forall a :: !IsCallWith(s, start, a)) ==>
      TrimOf(s[start..], FirstArgAndSpanOf(s, start).0) && FirstArgAndSpanOf(s, start).1 == s[start..]
  {
    hide ArgsAt, ArgsOk, OccursAt, TrimOf, TrimSpace, Scan;
    if Scan(s, start, 1, None).Closed? {
      var a := ArgsParse(s, start);
      ArgsPrinted(s, start, a);
      assert IsCallWith(s, start, a);
    }
    forall a | IsCallWith(s, start, a)
      ensures Scan(s, start, 1, None).Closed?
      ensures TrimOf(Print(a.first), FirstArgAndSpanOf(s, start).0)
      ensures FirstArgAndSpanOf(s, start).1 == PrintArgs(a)
    {
      ScannerInvertsPrinter(s, start, a);
    }
    TrimSpaceIs(s[start..], TrimSpace(s[start..]));
  }
}
