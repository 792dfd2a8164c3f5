/**
 The multi-row INSERT of the media audit queue: placeholder numbers printed by hand, an
 argument list built beside them, and a reader that says what rows the statement inserts.
 */
module AuditSql {
  import opened Text
  import opened AuditQueue
  import opened Splitting

  datatype SqlValue = Null | Uuid(id: nat) | Str(s: string) | Time(t: int)

  /** The columns that the header names, in its order. */
  const COLUMNS: seq<string> :=
    ["user_id", "username", "action", "target_type", "target_id", "details", "ip_address", "created_at"]

  function Commas(names: seq<string>): string {
    if names == [] then ""
    else if |names| == 1 then names[0]
    else Commas(names[..|names| - 1]) + ", " + names[|names| - 1]
  }

  const HEADER: string := "INSERT INTO audit_log (" + Commas(COLUMNS) + ") VALUES "

  const ACTION: string := "media_serve"
  const TARGET_TYPE: string := "camera"

  function DetailsJson(kind: string, path: string): string {
    "{\"kind\":\"" + kind + "\",\"path\":\"" + path + "\"}"
  }

  function UserValue(id: nat): SqlValue {
    if id == 0 then Null else Uuid(id)
  }

  /** The six arguments of one row. */
  function RowArgs(r: Row): (a: seq<SqlValue>)
    ensures |a| == 6
  {
    [UserValue(r.userID), Str(r.username), Str(r.cameraID), Str(DetailsJson(r.kind, r.path)), Str(r.ip), Time(r.when)]
  }

  function AllArgs(rows: seq<Row>): (a: seq<SqlValue>)
    ensures |a| == 6 * |rows|
  {
    if rows == [] then [] else AllArgs(rows[..|rows| - 1]) + RowArgs(rows[|rows| - 1])
  }

  /** `"$"` and a number. */
  function Placeholder(n: nat): string {
    "$" + Decimal(n)
  }

  function TupleText(i: nat): string {
    "(" + Placeholder(i) + "," + Placeholder(i + 1) + ",'media_serve','camera'," + Placeholder(i + 2) + "," +
    Placeholder(i + 3) + "," + Placeholder(i + 4) + "," + Placeholder(i + 5) + ")"
  }

  /** The tuples of `n` rows, separated by commas. */
  function TuplesText(n: nat): string {
    if n == 0 then ""
    else TuplesText(n - 1) + (if n > 1 then "," else "") + TupleText(6 * (n - 1) + 1)
  }

  // ---- The loops ----

  /** Six digits are enough for exactly the numbers below a million. */
  lemma SixDigitsFit(n: nat)
    ensures |Decimal(n)| <= 6 <==> n < 1_000_000
  {
    PowerValues();
    DecimalLength(n, 6);
  }

  /** Prints a number into a six-character buffer from the back. */
  method WriteIdx(n: nat) returns (text: string)
    requires n < 1_000_000
    ensures text == Decimal(n)
  {
    if n < 10 {
      return [DigitChar(n)];
    }
    var digits := new char[6](_ => 0 as char);
    var i := digits.Length;
    var m: nat := n;
    PowerValues();
    while m > 0
      invariant 0 <= i <= 6 && m < Pow(10, i)
      invariant m > 0 ==> Decimal(m) + digits[i..] == Decimal(n)
      invariant m == 0 ==> digits[i..] == Decimal(n)
    {
      ghost var done := digits[i..];
      i := i - 1;
      digits[i] := DigitChar(m % 10);
      assert digits[i..] == [DigitChar(m % 10)] + done;
      assert m >= 10 ==> Decimal(m) + done == Decimal(m / 10) + digits[i..];
      m := m / 10;
    }
    return digits[i..];
  }

  lemma NextTuple(rows: seq<Row>, i: nat)
    requires i < |rows|
    ensures TuplesText(i + 1) == TuplesText(i) + (if i > 0 then "," else "") + TupleText(6 * i + 1)
    ensures AllArgs(rows[..i + 1]) == AllArgs(rows[..i]) + RowArgs(rows[i])
  {
    assert rows[..i + 1][..i] == rows[..i];
  }

  /** Builds the statement and its arguments for one batch. */
  method BuildInsert(rows: seq<Row>) returns (sql: string, args: seq<SqlValue>)
    requires 6 * |rows| < 1_000_000
    ensures sql == HEADER + TuplesText(|rows|)
    ensures args == AllArgs(rows)
  {
    hide Decimal, TuplesText, AllArgs, RowArgs;
    sql, args := HEADER, [];
    var argIdx := 1;
    NoTuples();
    assert rows[..0] == [];
    for i := 0 to |rows|
      invariant argIdx == 6 * i + 1
      invariant sql == HEADER + TuplesText(i) && args == AllArgs(rows[..i])
    {
      NextTuple(rows, i);
      var t0 := WriteIdx(argIdx);
      var t1 := WriteIdx(argIdx + 1);
      var t2 := WriteIdx(argIdx + 2);
      var t3 := WriteIdx(argIdx + 3);
      var t4 := WriteIdx(argIdx + 4);
      var t5 := WriteIdx(argIdx + 5);
      var tuple := "(" + ("$" + t0) + "," + ("$" + t1) + ",'media_serve','camera'," + ("$" + t2) + "," +
                   ("$" + t3) + "," + ("$" + t4) + "," + ("$" + t5) + ")";
      assert tuple == TupleText(argIdx);
      sql := sql + (if i > 0 then "," else "") + tuple;
      args := args + RowArgs(rows[i]);
      assert sql == HEADER + TuplesText(i + 1) by {
        Regroup(HEADER, TuplesText(i), if i > 0 then "," else "", tuple);
      }
      argIdx := argIdx + 6;
    }
    assert rows[..|rows|] == rows;
  }

  lemma NoTuples()
    ensures TuplesText(0) == "" && AllArgs([]) == []
  {
  }

  // ---- Reading the statement back ----

  datatype List<T> = Nil | Cons(head: T, tail: List<T>)

  datatype Token = Open | Close | Comma | Param(n: nat) | Literal(s: string)

  /** The longest run of digits at the front. */
  function DigitRun(s: string): (k: nat)
    ensures k <= |s| && forall i | 0 <= i < k :: IsDigit(s[i])
  {
    if s == "" || !IsDigit(s[0]) then 0 else 1 + DigitRun(s[1..])
  }

  function UntilQuote(s: string): (k: nat)
    ensures k <= |s| && '\'' !in s[..k]
  {
    if s == "" || s[0] == '\'' then 0 else 1 + UntilQuote(s[1..])
  }

  /** The tokens of a VALUES list, or None for a text that has none. */
  function Lex(s: string): Option<List<Token>> {
    if s == "" then Some(Nil)
    else if s[0] == '(' then Prepend(Open, Lex(s[1..]))
    else if s[0] == ')' then Prepend(Close, Lex(s[1..]))
    else if s[0] == ',' then Prepend(Comma, Lex(s[1..]))
    else if s[0] == '$' then
      var k := DigitRun(s[1..]);
      if k == 0 then None else Prepend(Param(ParseDecimal(s[1..][..k])), Lex(s[1..][k..]))
    else if s[0] == '\'' then
      var k := UntilQuote(s[1..]);
      if k == |s[1..]| then None else Prepend(Literal(s[1..][..k]), Lex(s[1..][k + 1..]))
    else None
  }

  function Prepend(t: Token, rest: Option<List<Token>>): Option<List<Token>> {
    if rest.None? then None else Some(Cons(t, rest.value))
  }

  /** What a value token stands for under the bound arguments, numbered from 1. */
  function ValueOf(t: Token, args: seq<SqlValue>): Option<SqlValue> {
    match t
    case Param(n) => if 1 <= n <= |args| then Some(args[n - 1]) else None
    case Literal(s) => Some(Str(s))
    case _ => None
  }

  datatype Tuple = NoTuple | ATuple(columns: List<SqlValue>, rest: List<Token>)

  /** The columns of one tuple: values separated by commas, up to the closing bracket. */
  function ReadTuple(toks: List<Token>, args: seq<SqlValue>): (r: Tuple)
    ensures r.ATuple? ==> r.rest < toks
  {
    match toks
    case Cons(t, Cons(mark, more)) =>
      var v := ValueOf(t, args);
      if v.None? then NoTuple
      else if mark == Close then ATuple(Cons(v.value, Nil), more)
      else if mark == Comma then
        var r := ReadTuple(more, args);
        if r.NoTuple? then NoTuple else ATuple(Cons(v.value, r.columns), r.rest)
      else NoTuple
    case _ => NoTuple
  }

  /** The rows a VALUES list inserts: one tuple or more, separated by commas. */
  function ReadTuples(toks: List<Token>, args: seq<SqlValue>): Option<List<List<SqlValue>>> {
    match toks
    case Cons(Open, more) =>
      var first := ReadTuple(more, args);
      if first.NoTuple? then None
      else
        (match first.rest
         case Nil => Some(Cons(first.columns, Nil))
         case Cons(Comma, next) =>
           var others := ReadTuples(next, args);
           if others.None? then None else Some(Cons(first.columns, others.value))
         case _ => None)
    case _ => None
  }

  /** The placeholder numbers, from left to right. */
  function Params(toks: List<Token>): List<nat> {
    match toks
    case Nil => Nil
    case Cons(Param(n), more) => Cons(n, Params(more))
    case Cons(_, more) => Params(more)
  }

  // ---- What one token prints ----

  lemma {:induction false} DigitRunOf(d: string, rest: string)
    requires forall c | c in d :: IsDigit(c)
    requires rest == "" || !IsDigit(rest[0])
    ensures DigitRun(d + rest) == |d|
  {
    if d == "" {
      assert d + rest == rest;
    } else {
      assert (d + rest)[1..] == d[1..] + rest;
      DigitRunOf(d[1..], rest);
    }
  }

  lemma {:induction false} UntilQuoteOf(d: string, rest: string)
    requires '\'' !in d
    ensures UntilQuote(d + ("'" + rest)) == |d|
  {
    if d != "" {
      assert (d + ("'" + rest))[1..] == d[1..] + ("'" + rest);
      UntilQuoteOf(d[1..], rest);
    }
  }

  lemma LexDollar(t: string, k: nat)
    requires k == DigitRun(t) && k > 0
    ensures Lex("$" + t) == Prepend(Param(ParseDecimal(t[..k])), Lex(t[k..]))
  {
    assert ("$" + t)[1..] == t;
  }

  lemma LexPlaceholder(n: nat, rest: string)
    requires rest == "" || !IsDigit(rest[0])
    ensures Lex(Placeholder(n) + rest) == Prepend(Param(n), Lex(rest))
  {
    hide Decimal, DigitRun, ParseDecimal, Lex;
    var d := Decimal(n);
    DigitRunOf(d, rest);
    DecimalRoundTrip(n);
    LexDollar(d + rest, |d|);
    Regroup("$", d, rest, "");
    assert (d + rest)[..|d|] == d && (d + rest)[|d|..] == rest;
  }

  lemma LexMark(c: char, t: Token, rest: string)
    requires (c, t) in {('(', Open), (')', Close), (',', Comma)}
    ensures Lex([c] + rest) == Prepend(t, Lex(rest))
  {
    assert ([c] + rest)[1..] == rest;
  }

  lemma LexLiteral(d: string, rest: string)
    requires '\'' !in d
    ensures Lex("'" + d + "'" + rest) == Prepend(Literal(d), Lex(rest))
  {
    var s := "'" + d + "'" + rest;
    assert s[1..] == d + ("'" + rest);
    UntilQuoteOf(d, rest);
    assert (d + ("'" + rest))[..|d|] == d && (d + ("'" + rest))[|d| + 1..] == rest;
  }

  /** A placeholder and the mark behind it. */
  lemma LexNumbered(n: nat, mark: char, t: Token, rest: string)
    requires (mark, t) in {(')', Close), (',', Comma)}
    ensures Lex(Placeholder(n) + ([mark] + rest)) == Prepend(Param(n), Prepend(t, Lex(rest)))
  {
    hide Placeholder, Lex;
    LexPlaceholder(n, [mark] + rest);
    LexMark(mark, t, rest);
  }

  lemma LexLabels(rest: string)
    ensures Lex("'media_serve','camera'," + rest) ==
            Prepend(Literal(ACTION), Prepend(Comma, Prepend(Literal(TARGET_TYPE), Prepend(Comma, Lex(rest)))))
  {
    hide Lex, Prepend;
    var t2 := "," + rest;
    var t1 := "'" + TARGET_TYPE + "'" + t2;
    assert "'media_serve','camera'," + rest == "'" + ACTION + "'" + ("," + t1);
    LexLiteral(ACTION, "," + t1);
    LexMark(',', Comma, t1);
    LexLiteral(TARGET_TYPE, t2);
    LexMark(',', Comma, rest);
  }

  // ---- The statement reads back as the batch ----

  /** The tokens of a tuple in front of other tokens. */
  function TupleThen(i: nat, rest: List<Token>): List<Token> {
    Cons(Open, Cons(Param(i), Cons(Comma, Cons(Param(i + 1), Cons(Comma,
    Cons(Literal(ACTION), Cons(Comma, Cons(Literal(TARGET_TYPE), Cons(Comma,
    Cons(Param(i + 2), Cons(Comma, Cons(Param(i + 3), Cons(Comma,
    Cons(Param(i + 4), Cons(Comma, Cons(Param(i + 5), Cons(Close, rest)))))))))))))))))
  }

  lemma TupleTextNests(i: nat, rest: string, r5: string, r4: string, r3: string, r2: string, r1: string, r0: string)
    requires r5 == Placeholder(i + 5) + (")" + rest)
    requires r4 == Placeholder(i + 4) + ("," + r5)
    requires r3 == Placeholder(i + 3) + ("," + r4)
    requires r2 == Placeholder(i + 2) + ("," + r3)
    requires r1 == Placeholder(i + 1) + ("," + ("'media_serve','camera'," + r2))
    requires r0 == Placeholder(i) + ("," + r1)
    ensures TupleText(i) + rest == "(" + r0
  {
    hide Placeholder;
  }

  lemma LexTuple(i: nat, rest: string)
    requires Lex(rest).Some?
    ensures Lex(TupleText(i) + rest) == Some(TupleThen(i, Lex(rest).value))
  {
    hide Lex, Placeholder;
    var r5 := Placeholder(i + 5) + (")" + rest);
    var r4 := Placeholder(i + 4) + ("," + r5);
    var r3 := Placeholder(i + 3) + ("," + r4);
    var r2 := Placeholder(i + 2) + ("," + r3);
    var r1 := Placeholder(i + 1) + ("," + ("'media_serve','camera'," + r2));
    var r0 := Placeholder(i) + ("," + r1);
    TupleTextNests(i, rest, r5, r4, r3, r2, r1, r0);
    LexMark('(', Open, r0);
    LexNumbered(i, ',', Comma, r1);
    LexNumbered(i + 1, ',', Comma, "'media_serve','camera'," + r2);
    LexLabels(r2);
    LexNumbered(i + 2, ',', Comma, r3);
    LexNumbered(i + 3, ',', Comma, r4);
    LexNumbered(i + 4, ',', Comma, r5);
    LexNumbered(i + 5, ')', Close, rest);
  }

  /** The tokens of tuples k to n, separated by commas. */
  function TuplesFrom(k: nat, n: nat): List<Token>
    requires k < n
    decreases n - k
  {
    TupleThen(6 * k + 1, if k + 1 < n then Cons(Comma, TuplesFrom(k + 1, n)) else Nil)
  }

  lemma TuplesTextStep(n: nat)
    ensures TuplesText(n + 1) == TuplesText(n) + (if n > 0 then "," else "") + TupleText(6 * n + 1)
  {
    hide TupleText;
  }

  lemma TuplesTextGrow(n: nat, rest: string)
    ensures TuplesText(n + 1) + rest == TuplesText(n) + ((if n > 0 then "," else "") + (TupleText(6 * n + 1) + rest))
  {
    hide TuplesText, TupleText;
    TuplesTextStep(n);
    Regroup(TuplesText(n), if n > 0 then "," else "", TupleText(6 * n + 1), rest);
  }

  /** The text of the first k tuples, in front of the rest of the n, has the tokens of all n. */
  lemma {:induction false} LexTuples(k: nat, n: nat, rest: string)
    requires k < n && Lex(rest) == Some(TuplesFrom(k, n))
    ensures Lex(TuplesText(k) + ((if k > 0 then "," else "") + rest)) == Some(TuplesFrom(0, n))
  {
    hide Lex, TupleText, TupleThen;
    if k == 0 {
      assert TuplesText(0) + ("" + rest) == rest;
    } else {
      hide TuplesText;
      assert TuplesFrom(k - 1, n) == TupleThen(6 * (k - 1) + 1, Cons(Comma, TuplesFrom(k, n)));
      hide TuplesFrom;
      LexMark(',', Comma, rest);
      LexTuple(6 * (k - 1) + 1, "," + rest);
      TuplesTextGrow(k - 1, "," + rest);
      LexTuples(k - 1, n, TupleText(6 * (k - 1) + 1) + ("," + rest));
    }
  }

  lemma PlusNothing(s: string)
    ensures s + "" == s
  {
  }

  lemma LexNothing()
    ensures Lex("") == Some(Nil)
  {
  }

  lemma LastTuple(n: nat)
    requires n > 0
    ensures TuplesFrom(n - 1, n) == TupleThen(6 * (n - 1) + 1, Nil)
  {
    hide TupleThen;
  }

  lemma LexAllTuples(n: nat)
    requires n > 0
    ensures Lex(TuplesText(n)) == Some(TuplesFrom(0, n))
  {
    hide Lex, TupleText, TuplesText, TupleThen, TuplesFrom;
    LexNothing();
    LastTuple(n);
    LexTuple(6 * (n - 1) + 1, "");
    LexTuples(n - 1, n, TupleText(6 * (n - 1) + 1) + "");
    TuplesTextGrow(n - 1, "");
    PlusNothing(TuplesText(n));
  }

  /** The eight columns a row is stored as, in the order of the header. */
  function ColumnsOf(r: Row): List<SqlValue> {
    Cons(UserValue(r.userID), Cons(Str(r.username), Cons(Str(ACTION), Cons(Str(TARGET_TYPE), Cons(Str(r.cameraID),
    Cons(Str(DetailsJson(r.kind, r.path)), Cons(Str(r.ip), Cons(Time(r.when), Nil))))))))
  }

  lemma {:induction false} ArgsInPlace(rows: seq<Row>, k: nat, j: nat)
    requires k < |rows| && j < 6
    ensures AllArgs(rows)[6 * k + j] == RowArgs(rows[k])[j]
  {
    hide RowArgs;
    if k < |rows| - 1 {
      ArgsInPlace(rows[..|rows| - 1], k, j);
    }
  }

  lemma ReadLast(v: Token, more: List<Token>, args: seq<SqlValue>)
    requires ValueOf(v, args).Some?
    ensures ReadTuple(Cons(v, Cons(Close, more)), args) == ATuple(Cons(ValueOf(v, args).value, Nil), more)
  {
  }

  lemma ReadNext(v: Token, toks: List<Token>, args: seq<SqlValue>)
    requires ValueOf(v, args).Some? && ReadTuple(toks, args).ATuple?
    ensures
      var r := ReadTuple(toks, args);
      ReadTuple(Cons(v, Cons(Comma, toks)), args) == ATuple(Cons(ValueOf(v, args).value, r.columns), r.rest)
  {
  }

  lemma ArgValue(rows: seq<Row>, k: nat, j: nat)
    requires k < |rows| && j < 6
    ensures ValueOf(Param(6 * k + 1 + j), AllArgs(rows)) == Some(RowArgs(rows[k])[j])
  {
    hide AllArgs, RowArgs;
    ArgsInPlace(rows, k, j);
    assert 6 * k + j < 6 * |rows|;
  }

  lemma LiteralValue(s: string, args: seq<SqlValue>)
    ensures ValueOf(Literal(s), args) == Some(Str(s))
  {
  }

  lemma ReadOneTuple(rows: seq<Row>, k: nat, more: List<Token>)
    requires k < |rows|
    ensures ReadTuple(TupleThen(6 * k + 1, more).tail, AllArgs(rows)) == ATuple(ColumnsOf(rows[k]), more)
  {
    hide ReadTuple, AllArgs, RowArgs, ValueOf, ColumnsOf;
    var args, v, i := AllArgs(rows), RowArgs(rows[k]), 6 * k + 1;
    ArgValue(rows, k, 0);
    ArgValue(rows, k, 1);
    ArgValue(rows, k, 2);
    ArgValue(rows, k, 3);
    ArgValue(rows, k, 4);
    ArgValue(rows, k, 5);
    LiteralValue(ACTION, args);
    LiteralValue(TARGET_TYPE, args);
    var t5 := Cons(Param(i + 5), Cons(Close, more));
    var t4 := Cons(Param(i + 4), Cons(Comma, t5));
    var t3 := Cons(Param(i + 3), Cons(Comma, t4));
    var t2 := Cons(Param(i + 2), Cons(Comma, t3));
    var tb := Cons(Literal(TARGET_TYPE), Cons(Comma, t2));
    var ta := Cons(Literal(ACTION), Cons(Comma, tb));
    var t1 := Cons(Param(i + 1), Cons(Comma, ta));
    ReadLast(Param(i + 5), more, args);
    ReadNext(Param(i + 4), t5, args);
    ReadNext(Param(i + 3), t4, args);
    ReadNext(Param(i + 2), t3, args);
    ReadNext(Literal(TARGET_TYPE), t2, args);
    ReadNext(Literal(ACTION), tb, args);
    ReadNext(Param(i + 1), ta, args);
    ReadNext(Param(i), t1, args);
    RowColumns(rows[k]);
  }

  lemma RowColumns(r: Row)
    ensures
      var v := RowArgs(r);
      ColumnsOf(r) == Cons(v[0], Cons(v[1], Cons(Str(ACTION), Cons(Str(TARGET_TYPE), Cons(v[2], Cons(v[3],
                      Cons(v[4], Cons(v[5], Nil))))))))
  {
  }

  /** The columns of the rows from `k` on. */
  function ColumnsFrom(rows: seq<Row>, k: nat): List<List<SqlValue>>
    requires k <= |rows|
    decreases |rows| - k
  {
    if k == |rows| then Nil else Cons(ColumnsOf(rows[k]), ColumnsFrom(rows, k + 1))
  }

  lemma {:induction false} ReadTuplesBack(rows: seq<Row>, k: nat)
    requires k < |rows|
    ensures ReadTuples(TuplesFrom(k, |rows|), AllArgs(rows)) == Some(ColumnsFrom(rows, k))
    decreases |rows| - k
  {
    var n := |rows|;
    var more := if k + 1 < n then Cons(Comma, TuplesFrom(k + 1, n)) else Nil;
    ReadOneTuple(rows, k, more);
    if k + 1 < n {
      ReadTuplesBack(rows, k + 1);
    }
    assert TuplesFrom(k, n) == TupleThen(6 * k + 1, more);
    assert TupleThen(6 * k + 1, more) == Cons(Open, TupleThen(6 * k + 1, more).tail);
    hide ReadTuple, AllArgs, ColumnsOf, TupleThen;
  }

  /** The numbers from, from + 1, ... , n of them. */
  function Count(from: nat, n: nat): List<nat>
    decreases n
  {
    if n == 0 then Nil else Cons(from, Count(from + 1, n - 1))
  }

  lemma CountThree(i: nat, n: nat)
    requires n >= 3
    ensures Count(i, n) == Cons(i, Cons(i + 1, Cons(i + 2, Count(i + 3, n - 3))))
  {
    assert Count(i + 1, n - 1) == Cons(i + 1, Count(i + 2, n - 2));
  }

  lemma ParamsTake(n: nat, mark: Token, more: List<Token>)
    requires !mark.Param?
    ensures Params(Cons(Param(n), Cons(mark, more))) == Cons(n, Params(more))
  {
  }

  lemma ParamsSkip(s: string, more: List<Token>)
    ensures Params(Cons(Literal(s), Cons(Comma, more))) == Params(more)
  {
  }

  lemma ParamsOfTuple(i: nat, rest: List<Token>)
    ensures Params(TupleThen(i, rest)) ==
            Cons(i, Cons(i + 1, Cons(i + 2, Cons(i + 3, Cons(i + 4, Cons(i + 5, Params(rest)))))))
  {
    var t := TupleThen(i, rest);
    assert Params(t) == Params(t.tail);
    hide Params;
    var t5 := Cons(Param(i + 5), Cons(Close, rest));
    var t4 := Cons(Param(i + 4), Cons(Comma, t5));
    var t3 := Cons(Param(i + 3), Cons(Comma, t4));
    var t2 := Cons(Param(i + 2), Cons(Comma, t3));
    var tb := Cons(Literal(TARGET_TYPE), Cons(Comma, t2));
    var ta := Cons(Literal(ACTION), Cons(Comma, tb));
    var t1 := Cons(Param(i + 1), Cons(Comma, ta));
    ParamsTake(i + 5, Close, rest);
    ParamsTake(i + 4, Comma, t5);
    ParamsTake(i + 3, Comma, t4);
    ParamsTake(i + 2, Comma, t3);
    ParamsSkip(TARGET_TYPE, t2);
    ParamsSkip(ACTION, tb);
    ParamsTake(i + 1, Comma, ta);
    ParamsTake(i, Comma, t1);
  }

  lemma {:induction false} ParamsCount(k: nat, n: nat)
    requires k < n
    ensures Params(TuplesFrom(k, n)) == Count(6 * k + 1, 6 * (n - k))
    decreases n - k
  {
    var rest := if k + 1 < n then Cons(Comma, TuplesFrom(k + 1, n)) else Nil;
    ParamsOfTuple(6 * k + 1, rest);
    CountThree(6 * k + 1, 6 * (n - k));
    CountThree(6 * k + 4, 6 * (n - k) - 3);
    if k + 1 < n {
      ParamsCount(k + 1, n);
    }
    hide TupleThen;
  }

  /**
   The statement of a batch reads back as the batch: its placeholders are $1 to $6n from left
   to right, and with its arguments bound it inserts one tuple of eight columns per row, in order.
   */
  lemma InsertReadsBack(rows: seq<Row>)
    requires rows != []
    ensures Lex(TuplesText(|rows|)).Some?
    ensures Params(Lex(TuplesText(|rows|)).value) == Count(1, 6 * |rows|)
    ensures ReadTuples(Lex(TuplesText(|rows|)).value, AllArgs(rows)) == Some(ColumnsFrom(rows, 0))
  {
    hide Lex, TuplesText, TuplesFrom, Params, ReadTuples, AllArgs, Count, ColumnsFrom;
    LexAllTuples(|rows|);
    ParamsCount(0, |rows|);
    ReadTuplesBack(rows, 0);
  }

  // ---- What the columns say ----

  /** The text names kind and path in that order; cut at its quotes it shows both as they are. */
  ghost predicate SpellsDetails(details: string, kind: string, path: string) {
    Split(details, '"') == ["{", "kind", ":", kind, ",", "path", ":", path, "}"]
  }

  /** It does so exactly when neither holds a quote; the handler has checked both. */
  lemma DetailsAreSpelledIff(kind: string, path: string)
    ensures SpellsDetails(DetailsJson(kind, path), kind, path) <==> '"' !in kind && '"' !in path
  {
    hide Split;
    if '"' !in kind && '"' !in path {
      DetailsAreSpelled(kind, path);
    }
    var cut := Split(DetailsJson(kind, path), '"');
    if SpellsDetails(DetailsJson(kind, path), kind, path) {
      assert kind == cut[3] && path == cut[7];
    }
  }

  lemma DetailsAreSpelled(kind: string, path: string)
    requires '"' !in kind && '"' !in path
    ensures SpellsDetails(DetailsJson(kind, path), kind, path)
  {
    hide Split;
    var q := ['"'];
    var a := "{" + q + "kind" + q + ":" + q + kind;
    var b := a + q + "," + q + "path" + q + ":" + q + path;
    SplitPlain("{", '"');
    SplitLast("{", "kind", '"');
    SplitLast("{" + q + "kind", ":", '"');
    SplitLast("{" + q + "kind" + q + ":", kind, '"');
    SplitLast(a, ",", '"');
    SplitLast(a + q + ",", "path", '"');
    SplitLast(a + q + "," + q + "path", ":", '"');
    SplitLast(a + q + "," + q + "path" + q + ":", path, '"');
    SplitLast(b, "}", '"');
    JsonIsQuoted(kind, path);
    assert ["{"] + ["kind"] + [":"] + [kind] + [","] + ["path"] + [":"] + [path] + ["}"] ==
           ["{", "kind", ":", kind, ",", "path", ":", path, "}"];
  }

  lemma JsonIsQuoted(kind: string, path: string)
    ensures
      var q := ['"'];
      DetailsJson(kind, path) ==
        "{" + q + "kind" + q + ":" + q + kind + q + "," + q + "path" + q + ":" + q + path + q + "}"
  {
    var q := ['"'];
    var open := "{" + q + "kind" + q + ":" + q;
    assert open == "{\"kind\":\"";
    var x := open + kind;
    assert x + "\",\"path\":\"" == x + q + "," + q + "path" + q + ":" + q;
    var y := x + "\",\"path\":\"" + path;
    assert y + "\"}" == y + q + "}";
  }

  function ToSeqOf(columns: List<SqlValue>): seq<SqlValue> {
    match columns
    case Nil => []
    case Cons(v, more) => [v] + ToSeqOf(more)
  }

  /**
   The value under each named column, spelled out: the user only when there is one, the camera as the
   target, kind and path in the details.
   */
  ghost predicate Spells(columns: List<SqlValue>, r: Row) {
    var v := ToSeqOf(columns);
    && |v| == 8
    && COLUMNS[0] == "user_id" && v[0] == (if r.userID != 0 then Uuid(r.userID) else Null)
    && COLUMNS[1] == "username" && v[1] == Str(r.username)
    && COLUMNS[2] == "action" && v[2] == Str("media_serve")
    && COLUMNS[3] == "target_type" && v[3] == Str("camera")
    && COLUMNS[4] == "target_id" && v[4] == Str(r.cameraID)
    && COLUMNS[5] == "details" && v[5].Str? && (QuoteFree(r) ==> SpellsDetails(v[5].s, r.kind, r.path))
    && COLUMNS[6] == "ip_address" && v[6] == Str(r.ip)
    && COLUMNS[7] == "created_at" && v[7] == Time(r.when)
  }

  /** What the handler has checked: the kind is a fixed word, the path a plain file name. */
  predicate QuoteFree(r: Row) { '"' !in r.kind && '"' !in r.path }

  lemma EightColumns(a: SqlValue, b: SqlValue, c: SqlValue, d: SqlValue, e: SqlValue, f: SqlValue, g: SqlValue,
                     h: SqlValue)
    ensures ToSeqOf(Cons(a, Cons(b, Cons(c, Cons(d, Cons(e, Cons(f, Cons(g, Cons(h, Nil)))))))))
            == [a, b, c, d, e, f, g, h]
  {
    hide ToSeqOf;
    FourColumns(e, f, g, h, Nil);
    FourColumns(a, b, c, d, Cons(e, Cons(f, Cons(g, Cons(h, Nil)))));
    NoMoreColumns();
  }

  lemma FourColumns(a: SqlValue, b: SqlValue, c: SqlValue, d: SqlValue, more: List<SqlValue>)
    ensures ToSeqOf(Cons(a, Cons(b, Cons(c, Cons(d, more))))) == [a, b, c, d] + ToSeqOf(more)
  {
    assert ToSeqOf(Cons(c, Cons(d, more))) == [c, d] + ToSeqOf(more);
  }

  lemma NoMoreColumns()
    ensures ToSeqOf(Nil) == []
  {
  }

  lemma ColumnsSpell(r: Row)
    ensures Spells(ColumnsOf(r), r)
  {
    hide ToSeqOf, SpellsDetails, DetailsJson;
    if QuoteFree(r) { DetailsAreSpelled(r.kind, r.path); }
    EightColumns(if r.userID != 0 then Uuid(r.userID) else Null, Str(r.username), Str(ACTION), Str(TARGET_TYPE),
                 Str(r.cameraID), Str(DetailsJson(r.kind, r.path)), Str(r.ip), Time(r.when));
  }

  /** The columns determine the row: no two different rows are stored alike. */
  lemma ColumnsDetermineRow(columns: List<SqlValue>, r: Row, q: Row)
    requires Spells(columns, r) && Spells(columns, q) && QuoteFree(r) && QuoteFree(q)
    ensures r == q
  {
    hide ToSeqOf, Split;
    var v := ToSeqOf(columns);
    var d := Split(v[5].s, '"');
    assert d[3] == r.kind == q.kind && d[7] == r.path == q.path;
  }

  // ---- From the queue to the table ----

  function ToSeq(rows: List<List<SqlValue>>): seq<List<SqlValue>> {
    match rows
    case Nil => []
    case Cons(r, more) => [r] + ToSeq(more)
  }

  /** The columns of rows, row by row. */
  function Columns(rows: seq<Row>): seq<List<SqlValue>> {
    seq(|rows|, i requires 0 <= i < |rows| => ColumnsOf(rows[i]))
  }

  /** What the statement of one batch inserts, read off its text and its arguments. */
  function InsertedBy(batch: seq<Row>): seq<List<SqlValue>> {
    var toks := Lex(TuplesText(|batch|));
    if toks.None? then []
    else
      var rows := ReadTuples(toks.value, AllArgs(batch));
      if rows.None? then [] else ToSeq(rows.value)
  }

  function InsertedByAll(batches: seq<seq<Row>>): seq<List<SqlValue>> {
    if batches == [] then [] else InsertedByAll(batches[..|batches| - 1]) + InsertedBy(batches[|batches| - 1])
  }

  lemma {:induction false} ColumnsFromAre(rows: seq<Row>, k: nat)
    requires k <= |rows|
    ensures ToSeq(ColumnsFrom(rows, k)) == Columns(rows)[k..]
    decreases |rows| - k
  {
    hide ColumnsOf;
    if k < |rows| {
      ColumnsFromAre(rows, k + 1);
      assert Columns(rows)[k..] == [ColumnsOf(rows[k])] + Columns(rows)[k + 1..];
    }
  }

  lemma StatementInserts(batch: seq<Row>)
    requires batch != []
    ensures InsertedBy(batch) == Columns(batch)
  {
    hide Lex, TuplesText, ReadTuples, AllArgs, ColumnsFrom, ToSeq, Columns, Params, Count;
    InsertReadsBack(batch);
    ColumnsFromAre(batch, 0);
  }

  /** The k-th row that a batch's statement inserts spells the batch's k-th row. */
  lemma InsertedRowsSpell(batch: seq<Row>, k: nat)
    requires k < |batch|
    ensures |InsertedBy(batch)| == |batch| && Spells(InsertedBy(batch)[k], batch[k])
  {
    hide InsertedBy, Spells;
    StatementInserts(batch);
    ColumnsSpell(batch[k]);
  }

  lemma ColumnsAppend(a: seq<Row>, b: seq<Row>)
    ensures Columns(a + b) == Columns(a) + Columns(b)
  {
    hide ColumnsOf;
  }

  lemma {:induction false} StatementsInsert(batches: seq<seq<Row>>)
    requires forall i | 0 <= i < |batches| :: batches[i] != []
    ensures InsertedByAll(batches) == Columns(Concat(batches))
  {
    hide InsertedBy, Columns;
    if batches == [] {
      NoColumns();
    } else {
      var n := |batches| - 1;
      StatementsInsert(batches[..n]);
      StatementInserts(batches[n]);
      ColumnsAppend(Concat(batches[..n]), batches[n]);
    }
  }

  lemma NoColumns()
    ensures Columns([]) == []
  {
  }

  /**
   From the producers to the table: in every interleaving, what the statements of the flushed batches
   insert, then the columns of the batch in hand and of the channel, are the columns of the accepted
   rows, in order.
   */
  lemma AcceptedRowsAreInserted(run: seq<State>, events: seq<Event>, i: nat)
    requires IsRun(run, events) && i < |run|
    ensures
      var s := run[i];
      InsertedByAll(s.flushed) + Columns(s.pending) + Columns(s.channel) == Columns(s.accepted)
  {
    hide IsRun, Concat, InsertedByAll, Columns;
    var s := run[i];
    AuditConservation(run, events, i);
    StatementsInsert(s.flushed);
    ColumnsAppend(Concat(s.flushed), s.pending);
    ColumnsAppend(Concat(s.flushed) + s.pending, s.channel);
  }
}
