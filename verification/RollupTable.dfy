/**
 The rollup table read back: the lines of the rendered block, the cells of a line, and that the
 block shows which features it was rendered from.
 */
module RollupTable {
  import opened Text
  import opened Splitting
  import opened Rollup

  ghost predicate FieldsAvoid(f: Feature, c: char) {
    c !in f.name && c !in f.areaFile && c !in f.id && c !in f.tier && c !in f.status
  }

  /** The area as it is shown: the file's name without `.md`, or the whole name of any other file. */
  ghost predicate AreaOf(file: string, area: string) {
    file == area + ".md" || (file == area && (|area| < 3 || area[|area| - 3..] != ".md"))
  }

  lemma TrimSuffixIs(file: string, area: string)
    ensures TrimSuffix(file, ".md") == area <==> AreaOf(file, area)
  {
    var r := TrimSuffix(file, ".md");
    if AreaOf(file, area) && file == area + ".md" { assert file[|area|..] == ".md"; }
    if r != file { assert file == r + ".md"; }
  }

  // ---- The cells of a line ----

  /** A line has six bars, and between them the link, the id, the area, the tier and the status. */
  lemma RowCells(f: Feature, area: string)
    requires FieldsAvoid(f, '|') && AreaOf(f.areaFile, area)
    ensures Split(Row(f), '|') ==
      ["", " [" + f.name + "](" + f.areaFile + "#" + f.id + ") ", " `" + f.id + "` ", " " + area + " ",
       " " + f.tier + " ", " " + f.status + " ", "\n"]
  {
    hide Split;
    TrimSuffixIs(f.areaFile, area);
    var link, id := " [" + f.name + "](" + f.areaFile + "#" + f.id + ") ", " `" + f.id + "` ";
    var r1 := "" + ['|'] + link;
    var r2 := r1 + ['|'] + id;
    var r3 := r2 + ['|'] + (" " + area + " ");
    var r4 := r3 + ['|'] + (" " + f.tier + " ");
    var r5 := r4 + ['|'] + (" " + f.status + " ");
    SplitEmpty('|');
    SplitLast("", link, '|');
    SplitLast(r1, id, '|');
    SplitLast(r2, " " + area + " ", '|');
    SplitLast(r3, " " + f.tier + " ", '|');
    SplitLast(r4, " " + f.status + " ", '|');
    SplitLast(r5, "\n", '|');
    RowIs(f, area);
  }

  lemma RowIs(f: Feature, area: string)
    requires TrimSuffix(f.areaFile, ".md") == area
    ensures
      Row(f) == "" + ['|'] + (" [" + f.name + "](" + f.areaFile + "#" + f.id + ") ") + ['|'] + (" `" + f.id + "` ")
                + ['|'] + (" " + area + " ") + ['|'] + (" " + f.tier + " ") + ['|'] + (" " + f.status + " ")
                + ['|'] + "\n"
  {
    hide TrimSuffix;
  }

  // ---- The lines of the block ----

  const INTRO: string := " features. " + "Regenerate with " + "`go run ./cmd" + "/docgen " + "-write`._"
  const TITLES: string := "| Feature | ID " + "| Area | Tier " + "| Status |"
  const RULER: string := "|---|---|---|---|---|"

  /** The number of features, a blank line, the titles, then one line a feature, between the marker lines. */
  lemma BlockLines(features: seq<Feature>)
    requires forall f | f in features :: FieldsAvoid(f, '\n')
    ensures
      var lines := Split(Render(features), '\n');
      && |lines| == |features| + 6
      && lines[0] == BEGIN && lines[|features| + 5] == END
      && lines[1] == "_" + Decimal(|features|) + INTRO && lines[2] == "" && lines[3] == TITLES && lines[4] == RULER
      && forall i | 0 <= i < |features| :: lines[i + 5] + "\n" == Row(features[i])
  {
    hide Split, Row, Decimal;
    var count := "_" + Decimal(|features|) + INTRO;
    var head := BEGIN + ['\n'] + count + ['\n'] + "" + ['\n'] + TITLES + ['\n'] + RULER;
    HeadLines(|features|);
    var lines := RowLines(head, features);
    var z := Body(features)[..|Body(features)| - 1];
    HeadIs(|features|);
    EndIsOneLine();
    assert Body(features) == head + "\n" + Rows(features);
    SplitLast(z, END, '\n');
    assert Render(features) == z + ['\n'] + END;
  }

  lemma HeadIs(n: nat)
    ensures BEGIN + "\n" + ("_" + Decimal(n) + REGENERATE + TABLE_HEAD) + "\n" ==
            BEGIN + ['\n'] + ("_" + Decimal(n) + INTRO) + ['\n'] + "" + ['\n'] + TITLES + ['\n'] + RULER + "\n"
  {
    hide Decimal;
    RegenerateIs();
    HeadShape(BEGIN, Decimal(n), INTRO, TITLES, RULER);
  }

  lemma HeadShape(b: string, n: string, i: string, t: string, r: string)
    ensures b + "\n" + ("_" + n + (i + "\n\n") + (t + "\n" + r)) + "\n" ==
            b + ['\n'] + ("_" + n + i) + ['\n'] + "" + ['\n'] + t + ['\n'] + r + "\n"
  {
  }

  lemma RegenerateIs()
    ensures REGENERATE == INTRO + "\n\n" && TABLE_HEAD == TITLES + "\n" + RULER
  {
  }

  lemma EndIsOneLine()
    ensures '\n' !in BEGIN && '\n' !in END
  {
    assert '\n' !in "<!-- BEGIN GENERATED: rollup -->" && '\n' !in "<!-- END GENERATED -->";
  }

  lemma IntroIsOneLine()
    ensures '\n' !in INTRO
  {
    assert '\n' !in " features. " && '\n' !in "Regenerate with " && '\n' !in "`go run ./cmd";
    assert '\n' !in "/docgen " && '\n' !in "-write`._";
  }

  lemma TitlesAreOneLine()
    ensures '\n' !in TITLES && '\n' !in RULER
  {
    assert '\n' !in "| Feature | ID " && '\n' !in "| Area | Tier " && '\n' !in "| Status |";
    assert '\n' !in "|---|---|---|---|---|";
  }

  lemma HeadLines(n: nat)
    ensures Split(BEGIN + ['\n'] + ("_" + Decimal(n) + INTRO) + ['\n'] + "" + ['\n'] + TITLES + ['\n'] + RULER, '\n') ==
            [BEGIN, "_" + Decimal(n) + INTRO, "", TITLES, RULER]
  {
    hide Split, Decimal;
    EndIsOneLine();
    IntroIsOneLine();
    TitlesAreOneLine();
    assert !IsDigit('\n');
    var count := "_" + Decimal(n) + INTRO;
    assert '\n' !in count;
    var r2 := BEGIN + ['\n'] + count + ['\n'] + "";
    SplitPlain(BEGIN, '\n');
    SplitLast(BEGIN, count, '\n');
    SplitLast(BEGIN + ['\n'] + count, "", '\n');
    SplitLast(r2, TITLES, '\n');
    SplitLast(r2 + ['\n'] + TITLES, RULER, '\n');
  }

  /** The lines of some text and the rows after it, without the last line break. */
  lemma {:induction false} RowLines(head: string, features: seq<Feature>) returns (lines: seq<string>)
    requires forall f | f in features :: FieldsAvoid(f, '\n')
    ensures
      var all := head + "\n" + Rows(features);
      Split(all[..|all| - 1], '\n') == Split(head, '\n') + lines && all[|all| - 1] == '\n'
    ensures |lines| == |features| && forall i | 0 <= i < |features| :: lines[i] + "\n" == Row(features[i])
  {
    hide Split, Row;
    var all := head + "\n" + Rows(features);
    if features == [] {
      assert all[..|all| - 1] == head;
      lines := [];
    } else {
      var n := |features| - 1;
      var before := RowLines(head, features[..n]);
      var line := LineOf(features[n]);
      var z := head + "\n" + Rows(features[..n]);
      SplitLast(z[..|z| - 1], line, '\n');
      assert z == z[..|z| - 1] + ['\n'];
      Regroup(head + "\n", Rows(features[..n]), Row(features[n]), "");
      OneMoreLine(z, line);
      assert all == z + (line + "\n");
      lines := before + [line];
    }
  }

  lemma OneMoreLine(z: string, line: string)
    ensures
      var all := z + (line + "\n");
      all[..|all| - 1] == z + line && all[|all| - 1] == '\n'
  {
  }

  lemma LineOf(f: Feature) returns (line: string)
    requires FieldsAvoid(f, '\n')
    ensures line + "\n" == Row(f) && '\n' !in line
  {
    TrimSuffixIs(f.areaFile, TrimSuffix(f.areaFile, ".md"));
    hide TrimSuffix;
    var head := "| [" + f.name + "](" + f.areaFile + "#" + f.id + ") | `" + f.id + "` | ";
    line := head + (TrimSuffix(f.areaFile, ".md") + " | " + f.tier + " | " + f.status + " |");
  }

  // ---- The block shows its features ----

  /** No field holds the character that ends its place in the line. */
  ghost predicate Legible(f: Feature) {
    ']' !in f.name && '#' !in f.areaFile && '|' !in f.areaFile && ')' !in f.id && '`' !in f.id &&
    '|' !in f.tier && '|' !in f.status
  }

  ghost predicate Closed(pieces: seq<Piece>) {
    forall p | p in pieces :: p.sep !in p.text
  }

  lemma GlueFirst(pieces: seq<Piece>)
    requires pieces != []
    ensures Glue(pieces) == pieces[0].text + [pieces[0].sep] + Glue(pieces[1..])
  {
    hide Glue;
    GlueNil();
    GlueSnoc([], pieces[0]);
    GlueAppend([pieces[0]], pieces[1..]);
    assert [] + [pieces[0]] == [pieces[0]] && pieces == [pieces[0]] + pieces[1..];
    assert "" + pieces[0].text == pieces[0].text;
  }

  /** Two glued texts with the same closing characters are equal only if their pieces are. */
  lemma {:induction false} GlueDetermines(a: seq<Piece>, b: seq<Piece>)
    requires Closed(a) && Closed(b) && |a| == |b| && forall i | 0 <= i < |a| :: a[i].sep == b[i].sep
    requires Glue(a) == Glue(b)
    ensures a == b
  {
    hide Glue;
    if a != [] {
      GlueFirst(a);
      GlueFirst(b);
      assert a[0] in a && b[0] in b;
      CutAt(a[0].text, Glue(a[1..]), b[0].text, Glue(b[1..]), a[0].sep);
      GlueDetermines(a[1..], b[1..]);
      assert a == [a[0]] + a[1..] && b == [b[0]] + b[1..];
    }
  }

  lemma RowPiecesClosed(f: Feature)
    requires Legible(f)
    ensures Closed(RowPieces(f))
  {
    var area := TrimSuffix(f.areaFile, ".md");
    assert '|' !in area;
    hide TrimSuffix;
    assert '|' !in " " + area + " " && '|' !in " " + f.tier + " " && '|' !in " " + f.status + " ";
    assert '[' !in "| " && '`' !in " | ";
  }

  lemma RowPiecesAlike(f: Feature, g: Feature)
    ensures forall i | 0 <= i < 12 :: RowPieces(f)[i].sep == RowPieces(g)[i].sep
  {
    hide TrimSuffix;
  }

  lemma RowPiecesDetermine(f: Feature, g: Feature)
    ensures RowPieces(f) == RowPieces(g) ==> f == g
  {
    hide TrimSuffix;
    var p, q := RowPieces(f), RowPieces(g);
    if p == q {
      assert p[1] == q[1] && p[3] == q[3] && p[4] == q[4] && p[9] == q[9] && p[10] == q[10];
      Unpadded(f.tier, g.tier);
      Unpadded(f.status, g.status);
    }
  }

  lemma Unpadded(s: string, t: string)
    ensures " " + s + " " == " " + t + " " ==> s == t
  {
    if " " + s + " " == " " + t + " " {
      assert (" " + s + " ")[1..|s| + 1] == s && (" " + t + " ")[1..|t| + 1] == t;
    }
  }

  lemma {:induction false} PiecesClosed(a: seq<Feature>, b: seq<Feature>)
    requires |a| == |b|
    ensures (forall f | f in a :: Legible(f)) ==> Closed(Pieces(a))
    ensures |Pieces(b)| == |Pieces(a)| && forall i | 0 <= i < |Pieces(a)| :: Pieces(a)[i].sep == Pieces(b)[i].sep
  {
    hide RowPieces, Legible;
    if a != [] {
      var n := |a| - 1;
      PiecesClosed(a[..n], b[..n]);
      if Legible(a[n]) { RowPiecesClosed(a[n]); }
      RowPiecesAlike(a[n], b[n]);
    }
  }

  lemma {:induction false} PiecesDetermine(a: seq<Feature>, b: seq<Feature>)
    requires |a| == |b| && Pieces(a) == Pieces(b)
    ensures a == b
  {
    hide RowPieces;
    if a != [] {
      var n := |a| - 1;
      CutBack(Pieces(a[..n]), RowPieces(a[n]), Pieces(b[..n]), RowPieces(b[n]));
      PiecesDetermine(a[..n], b[..n]);
      RowPiecesDetermine(a[n], b[n]);
      assert a == a[..n] + [a[n]] && b == b[..n] + [b[n]];
    }
  }

  lemma CutBack<T>(p: seq<T>, a: seq<T>, q: seq<T>, b: seq<T>)
    requires p + a == q + b && |a| == |b|
    ensures p == q && a == b
  {
    assert p == (p + a)[..|p|] && q == (q + b)[..|p|];
    assert a == (p + a)[|p|..] && b == (q + b)[|p|..];
  }

  lemma RenderIs(features: seq<Feature>)
    ensures Render(features) == BEGIN + "\n_" + (Decimal(|features|) + [' '] +
                                                 (REGENERATE[1..] + TABLE_HEAD + "\n" + Rows(features) + END))
  {
    hide Decimal, Rows;
    FirstBlank();
    RenderShape(BEGIN, Decimal(|features|), REGENERATE[1..], TABLE_HEAD, Rows(features), END);
  }

  lemma FirstBlank()
    ensures REGENERATE == [' '] + REGENERATE[1..]
  {
  }

  lemma RenderShape(b: string, n: string, g: string, t: string, rows: string, e: string)
    ensures b + "\n" + ("_" + n + ([' '] + g) + t) + "\n" + rows + e ==
            b + "\n_" + (n + [' '] + (g + t + "\n" + rows + e))
  {
  }

  lemma Cancel(p: string, a: string, b: string, q: string)
    ensures p + a + q == p + b + q ==> a == b
  {
    if p + a + q == p + b + q {
      assert |a| == |b| && a == (p + a + q)[|p|..|p| + |a|] && b == (p + b + q)[|p|..|p| + |b|];
    }
  }

  lemma RowsOf(a: seq<Feature>, b: seq<Feature>)
    requires Render(a) == Render(b)
    ensures |a| == |b| && Rows(a) == Rows(b)
  {
    hide Decimal, Rows, Render;
    RenderIs(a);
    RenderIs(b);
    var (d, e) := (Decimal(|a|), Decimal(|b|));
    var x := REGENERATE[1..] + TABLE_HEAD + "\n" + Rows(a) + END;
    var y := REGENERATE[1..] + TABLE_HEAD + "\n" + Rows(b) + END;
    var start := BEGIN + "\n_";
    assert start + (d + [' '] + x) + "" == start + (d + [' '] + x);
    assert start + (e + [' '] + y) + "" == start + (e + [' '] + y);
    Cancel(start, d + [' '] + x, e + [' '] + y, "");
    assert !IsDigit(' ');
    CutAt(d, x, e, y, ' ');
    DecimalRoundTrip(|a|);
    DecimalRoundTrip(|b|);
    Cancel(REGENERATE[1..] + TABLE_HEAD + "\n", Rows(a), Rows(b), END);
  }

  /** Two lists of legible features render alike only if they are the same list. */
  lemma RenderDetermines(a: seq<Feature>, b: seq<Feature>)
    requires forall f | f in a + b :: Legible(f)
    requires Render(a) == Render(b)
    ensures a == b
  {
    hide Glue, Pieces, Render, Rows, Legible;
    RowsOf(a, b);
    RowsHold(a);
    RowsHold(b);
    PiecesClosed(a, b);
    PiecesClosed(b, a);
    GlueDetermines(Pieces(a), Pieces(b));
    PiecesDetermine(a, b);
  }

  /** A README passes the check for one list of legible features at most. */
  lemma CleanDetermines(src: string, a: seq<Feature>, b: seq<Feature>)
    requires a != [] && b != [] && forall f | f in a + b :: Legible(f)
    requires Check(Some(src), a) == Check(Some(src), b) == Clean
    ensures a == b
  {
    hide Render, Legible, Markers;
    RenderDetermines(a, b);
  }
}
