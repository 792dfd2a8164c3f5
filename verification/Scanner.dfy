/**
 The call-argument scanner of the documentation generator: from the position after a call's
 opening parenthesis it finds the first argument and the whole argument span, skipping
 quoted strings, template literals and nested brackets.

 The functions give the meaning of the scan, the methods are its loops, and the grammar in
 ScannerGrammar says which texts it accepts.
 */
module Scanner {
  import opened Text

  predicate IsOpen(c: char) { c == '(' || c == '[' || c == '{' }
  predicate IsClose(c: char) { c == ')' || c == ']' || c == '}' }
  predicate IsQuote(c: char) { c == '\'' || c == '"' }

  /** Where a quoted string that is open at `i` ends. An escape may jump one past the text. */
  function QuotedEnd(s: string, i: nat, quote: char): (r: nat)
    ensures i <= r && (i <= |s| + 1 ==> r <= |s| + 1)
    decreases |s| - i
  {
    if i >= |s| then i
    else if s[i] == '\\' then QuotedEnd(s, i + 2, quote)
    else if s[i] == quote then i + 1
    else QuotedEnd(s, i + 1, quote)
  }

  /** Where a template literal that is open at `i` ends. */
  function TemplateEnd(s: string, i: nat): (r: nat)
    ensures i <= r && (i <= |s| + 1 ==> r <= |s| + 1)
    decreases |s| - i, 1
  {
    if i >= |s| then i
    else if s[i] == '\\' then TemplateEnd(s, i + 2)
    else if s[i] == '`' then i + 1
    else if s[i] == '$' && i + 1 < |s| && s[i + 1] == '{' then TemplateEnd(s, InterpEnd(s, i + 2, 1))
    else TemplateEnd(s, i + 1)
  }

  /** Where an interpolation with `depth` open braces at `i` ends. Quotes mean nothing inside it. */
  function InterpEnd(s: string, i: nat, depth: nat): (r: nat)
    ensures i <= r && (i <= |s| + 1 ==> r <= |s| + 1)
    decreases |s| - i, 0
  {
    if i >= |s| || depth == 0 then i
    else InterpEnd(s, if s[i] == '`' then TemplateEnd(s, i + 1) else i + 1, BraceDepth(s[i], depth))
  }

  function BraceDepth(c: char, depth: nat): nat
    requires depth > 0
  {
    if c == '{' then depth + 1 else if c == '}' then depth - 1 else depth
  }

  lemma InterpStep(s: string, i: nat, depth: nat)
    requires i < |s| && depth > 0
    ensures InterpEnd(s, i, depth) ==
            InterpEnd(s, if s[i] == '`' then TemplateEnd(s, i + 1) else i + 1, BraceDepth(s[i], depth))
  {
  }

  lemma InterpDone(s: string, i: nat, depth: nat)
    requires i >= |s| || depth == 0
    ensures InterpEnd(s, i, depth) == i
  {
  }

  lemma TemplateStep(s: string, i: nat)
    ensures TemplateEnd(s, i) ==
      if i >= |s| then i
      else if s[i] == '\\' then TemplateEnd(s, i + 2)
      else if s[i] == '`' then i + 1
      else if s[i] == '$' && i + 1 < |s| && s[i + 1] == '{' then TemplateEnd(s, InterpEnd(s, i + 2, 1))
      else TemplateEnd(s, i + 1)
  {
  }

  datatype Found = Unclosed | Closed(argEnd: nat, close: nat)

  /** Where the token at `i` ends: a whole string or template, or one character. */
  function TokenEnd(s: string, i: nat): (r: nat)
    requires i < |s|
    ensures i < r <= |s| + 1
  {
    if IsQuote(s[i]) then QuotedEnd(s, i + 1, s[i])
    else if s[i] == '`' then TemplateEnd(s, i + 1)
    else i + 1
  }

  function BracketDepth(c: char, depth: nat): nat
    requires depth > 0
  {
    if IsOpen(c) then depth + 1 else if IsClose(c) then depth - 1 else depth
  }

  /** The scan from `i` with `depth` open brackets; `comma` is the first top-level comma so far. */
  function Scan(s: string, i: nat, depth: nat, comma: Option<nat>): (r: Found)
    requires depth > 0
    ensures r.Closed? ==> i <= r.close < |s| && IsClose(s[r.close])
    ensures r.Closed? && comma.Some? ==> r.argEnd == comma.value
    ensures r.Closed? && comma.None? ==> i <= r.argEnd <= r.close
    decreases |s| - i
  {
    if i >= |s| then Unclosed
    else if IsClose(s[i]) && depth == 1 then Closed(if comma.Some? then comma.value else i, i)
    else
      var first := if s[i] == ',' && depth == 1 && comma.None? then Some(i) else comma;
      Scan(s, TokenEnd(s, i), BracketDepth(s[i], depth), first)
  }

  /** The first argument and the argument span of the call whose arguments start at `start`. */
  function FirstArgAndSpanOf(s: string, start: nat): (string, string)
    requires start <= |s|
  {
    match Scan(s, start, 1, None)
    case Unclosed => (TrimSpace(s[start..]), s[start..])
    case Closed(a, j) => (TrimSpace(s[start..a]), s[start..j])
  }

  // ---- The loops ----

  method SkipQuoted(src: string, start: nat, quote: char) returns (i: nat)
    requires start < |src|
    ensures i == QuotedEnd(src, start + 1, quote)
    ensures start < i <= |src| + 1
  {
    i := start + 1;
    while i < |src|
      invariant start < i <= |src| + 1
      invariant QuotedEnd(src, i, quote) == QuotedEnd(src, start + 1, quote)
    {
      if src[i] == '\\' {
        i := i + 2;
        continue;
      }
      if src[i] == quote {
        return i + 1;
      }
      i := i + 1;
    }
  }

  method SkipTemplate(src: string, start: nat) returns (i: nat)
    requires start < |src|
    ensures i == TemplateEnd(src, start + 1)
    ensures start < i <= |src| + 1
    decreases |src| - start
  {
    hide TemplateEnd, InterpEnd;
    i := start + 1;
    while i < |src|
      invariant start < i <= |src| + 1
      invariant TemplateEnd(src, i) == TemplateEnd(src, start + 1)
    {
      TemplateStep(src, i);
      if src[i] == '\\' {
        i := i + 2;
      } else if src[i] == '`' {
        return i + 1;
      } else if src[i] == '$' && i + 1 < |src| && src[i + 1] == '{' {
        ghost var body := i + 2;
        var depth: nat := 1;
        i := i + 2;
        while i < |src| && depth > 0
          invariant body <= i <= |src| + 1
          invariant InterpEnd(src, i, depth) == InterpEnd(src, body, 1)
        {
          InterpStep(src, i, depth);
          if src[i] == '{' {
            depth := depth + 1;
          } else if src[i] == '}' {
            depth := depth - 1;
          } else if src[i] == '`' {
            i := SkipTemplate(src, i);
            i := i - 1;
          }
          i := i + 1;
        }
        InterpDone(src, i, depth);
      } else {
        i := i + 1;
      }
    }
    TemplateStep(src, i);
  }

  method FirstArgAndSpan(src: string, argStart: nat) returns (firstArg: string, span: string)
    requires argStart <= |src|
    ensures (firstArg, span) == FirstArgAndSpanOf(src, argStart)
  {
    hide TrimSpace, QuotedEnd, TemplateEnd;
    var depth: nat := 1;
    var i := argStart;
    var comma: Option<nat> := None;
    while i < |src|
      invariant argStart <= i <= |src| + 1 && depth > 0
      invariant comma.Some? ==> argStart <= comma.value < i
      invariant Scan(src, i, depth, comma) == Scan(src, argStart, 1, None)
    {
      var c := src[i];
      if IsQuote(c) {
        i := SkipQuoted(src, i, c);
        continue;
      } else if c == '`' {
        i := SkipTemplate(src, i);
        continue;
      } else if IsOpen(c) {
        depth := depth + 1;
      } else if IsClose(c) {
        depth := depth - 1;
        if depth == 0 {
          var firstArgEnd := if comma.Some? then comma.value else i;
          return TrimSpace(src[argStart..firstArgEnd]), src[argStart..i];
        }
      } else if c == ',' && depth == 1 && comma.None? {
        comma := Some(i);
      }
      i := i + 1;
    }
    return TrimSpace(src[argStart..]), src[argStart..];
  }
}
