/**
 The feature registry's rollup: a table rendered between two markers of a README, the update
 that splices it in, and the check that compares it.
 */
module Rollup {
  import opened Text

  datatype Feature = Feature(name: string, areaFile: string, id: string, tier: string, status: string)

  const BEGIN: string := "<!-- BEGIN GENERATED: rollup -->"
  const END: string := "<!-- END GENERATED -->"
  const REGENERATE: string := " features. " + "Regenerate with " + "`go run ./cmd" + "/docgen " + "-write`._\n\n"
  const TABLE_HEAD: string := "| Feature | ID " + "| Area | Tier " + "| Status |\n" + "|---|---|" + "---|---|---|"

  function TrimSuffix(s: string, suffix: string): (r: string)
    ensures r <= s
  {
    if |suffix| <= |s| && s[|s| - |suffix|..] == suffix then s[..|s| - |suffix|] else s
  }

  function Row(f: Feature): string {
    "| [" + f.name + "](" + f.areaFile + "#" + f.id + ") | `" + f.id + "` | " + TrimSuffix(f.areaFile, ".md") +
    " | " + f.tier + " | " + f.status + " |\n"
  }

  function Rows(features: seq<Feature>): string {
    if features == [] then "" else Rows(features[..|features| - 1]) + Row(features[|features| - 1])
  }

  /** Everything of the rendering before the end marker. */
  function Body(features: seq<Feature>): string {
    BEGIN + "\n" + ("_" + Decimal(|features|) + REGENERATE + TABLE_HEAD) + "\n" + Rows(features)
  }

  function Render(features: seq<Feature>): string {
    Body(features) + END
  }

  method RenderRollup(features: seq<Feature>) returns (b: string)
    ensures b == Render(features)
  {
    hide Row, Decimal;
    b := BEGIN + "\n";
    b := b + ("_" + Decimal(|features|) + REGENERATE + TABLE_HEAD) + "\n";
    ghost var head := b;
    for i := 0 to |features|
      invariant b == head + Rows(features[..i])
    {
      assert features[..i + 1][..i] == features[..i];
      b := b + Row(features[i]);
    }
    assert features[..|features|] == features;
    b := b + END;
  }

  /** Where the two markers stand; None when one is missing or they are in the wrong order. */
  function Markers(src: string): (m: Option<(nat, nat)>)
    ensures m.Some? ==> OccursAt(src, BEGIN, m.value.0) && OccursAt(src, END, m.value.1)
    ensures m.Some? ==> m.value.0 <= m.value.1 && m.value.1 + |END| <= |src|
  {
    var bi, ei := Index(src, BEGIN), Index(src, END);
    if bi.None? || ei.None? || ei.value < bi.value then None else Some((bi.value, ei.value))
  }

  function Updated(src: string, features: seq<Feature>): string
    requires Markers(src).Some?
  {
    var (bi, ei) := Markers(src).value;
    src[..bi] + Render(features) + src[ei + |END|..]
  }

  datatype UpdateResult = NoFeatures | NoReadme | MarkersMissing | Unchanged | Rewritten | WriteFailed
  datatype Finding = Clean | ReadmeMissing | MarkersAreMissing | Stale

  function Check(content: Option<string>, features: seq<Feature>): Finding {
    if features == [] then Clean
    else if content.None? then ReadmeMissing
    else if Markers(content.value).None? then MarkersAreMissing
    else
      var (bi, ei) := Markers(content.value).value;
      if content.value[bi..ei + |END|] != Render(features) then Stale else Clean
  }

  /** How writing the file ends; a write that fails midway leaves a part of the new text. */
  datatype WriteFate = WriteOk | NotOpened | CutShort(n: nat)

  function Left(fate: WriteFate, was: string, out: string): string {
    match fate
    case WriteOk => out
    case NotOpened => was
    case CutShort(n) => if n <= |out| then out[..n] else out
  }

  class Readme {
    var content: Option<string>

    method UpdateRollup(features: seq<Feature>, fate: WriteFate) returns (r: UpdateResult)
      modifies this
      ensures r == NoFeatures <==> features == []
      ensures r == NoReadme <==> features != [] && old(content).None?
      ensures r == MarkersMissing <==> features != [] && old(content).Some? && Markers(old(content).value).None?
      ensures r in {Unchanged, Rewritten, WriteFailed} ==>
        var was := old(content).value;
        var out := Updated(was, features);
        && (r == Unchanged <==> out == was)
        && (r == Rewritten ==> fate == WriteOk && content == Some(out))
        && (r == WriteFailed ==> fate != WriteOk && content == Some(Left(fate, was, out)))
      ensures r !in {Rewritten, WriteFailed} ==> content == old(content)
    {
      hide Render, Index;
      if features == [] {
        return NoFeatures;
      }
      if content.None? {
        return NoReadme;
      }
      var src := content.value;
      var bi, ei := Index(src, BEGIN), Index(src, END);
      if bi.None? || ei.None? || ei.value < bi.value {
        return MarkersMissing;
      }
      var table := RenderRollup(features);
      var out := src[..bi.value] + table + src[ei.value + |END|..];
      if out == src {
        return Unchanged;
      }
      content := Some(Left(fate, src, out));
      return if fate == WriteOk then Rewritten else WriteFailed;
    }

    method CheckRollup(features: seq<Feature>) returns (f: Finding)
      ensures f == Check(content, features)
    {
      hide Render, Index;
      if features == [] {
        return Clean;
      }
      if content.None? {
        return ReadmeMissing;
      }
      var src := content.value;
      var bi, ei := Index(src, BEGIN), Index(src, END);
      if bi.None? || ei.None? || ei.value < bi.value {
        return MarkersAreMissing;
      }
      var table := RenderRollup(features);
      return if src[bi.value..ei.value + |END|] != table then Stale else Clean;
    }
  }

  // ---- Where the end marker can stand ----

  /** A text cut into pieces, each closed by one character. */
  datatype Piece = Piece(text: string, sep: char)

  function Glue(pieces: seq<Piece>): string {
    if pieces == [] then ""
    else Glue(pieces[..|pieces| - 1]) + pieces[|pieces| - 1].text + [pieces[|pieces| - 1].sep]
  }

  ghost predicate SomeHolds(pieces: seq<Piece>) {
    exists i | 0 <= i < |pieces| :: Contains(pieces[i].text, END)
  }

  /** With separators that are not in the marker, the text holds it exactly when a piece does. */
  lemma {:induction false} GlueContains(pieces: seq<Piece>)
    requires forall p | p in pieces :: p.sep !in END
    ensures Contains(Glue(pieces), END) <==> SomeHolds(pieces)
  {
    hide Contains;
    if pieces == [] {
      NoMarker("");
    } else {
      var n := |pieces| - 1;
      GlueContains(pieces[..n]);
      var left, p := Glue(pieces[..n]), pieces[n];
      NoMarker("");
      ContainsSplit(left + p.text, p.sep, "", END);
      assert left + p.text + [p.sep] + "" == left + p.text + [p.sep];
      GlueLast(pieces[..n], p.text);
      assert SomeHolds(pieces) <==> SomeHolds(pieces[..n]) || Contains(p.text, END);
    }
  }

  /** A glued text ends in a separator, so a text after it is searched on its own. */
  lemma GlueLast(pieces: seq<Piece>, text: string)
    requires forall p | p in pieces :: p.sep !in END
    ensures Contains(Glue(pieces) + text, END) <==> Contains(Glue(pieces), END) || Contains(text, END)
  {
    hide Contains;
    if pieces == [] {
      NoMarker("");
      assert "" + text == text;
    } else {
      var n := |pieces| - 1;
      var before, sep := Glue(pieces[..n]) + pieces[n].text, pieces[n].sep;
      NoMarker("");
      ContainsSplit(before, sep, text, END);
      ContainsSplit(before, sep, "", END);
      assert before + [sep] + "" == before + [sep] == Glue(pieces);
    }
  }

  lemma CharUnder(s: string, m: string, k: nat, j: nat)
    requires j < |m|
    ensures OccursAt(s, m, k) ==> k + j < |s| && s[k + j] == m[j] && m[j] in s
  {
    if OccursAt(s, m, k) { assert s[k + j] == s[k..k + |m|][j]; }
  }

  /** A text without `<` holds no marker. */
  lemma NoMarker(s: string)
    requires '<' !in s
    ensures !Contains(s, END)
  {
    assert END[0] == '<';
    forall k: nat | k <= |s| ensures !OccursAt(s, END, k) { CharUnder(s, END, k, 0); }
  }

  /** The marker starts with `<` and ends with `>`, so blanks around a text do not matter. */
  lemma Blanks(s: string)
    ensures Contains(" " + s + " ", END) <==> Contains(s, END)
  {
    if Contains(s, END) { ContainsInside(" ", s, " ", END); }
    if Contains(" " + s + " ", END) { WithoutBlanks(s); }
  }

  lemma WithoutBlanks(s: string)
    requires Contains(" " + s + " ", END)
    ensures Contains(s, END)
  {
    hide OccursAt;
    var t := " " + s + " ";
    var k: nat :| k <= |t| && OccursAt(t, END, k);
    assert END[0] == '<' && END[|END| - 1] == '>';
    CharUnder(t, END, k, 0);
    CharUnder(t, END, k, |END| - 1);
    OccursInside(" ", s, " ", END, k - 1);
  }

  function RowPieces(f: Feature): (p: seq<Piece>)
    ensures |p| == 12
  {
    [Piece("| ", '['), Piece(f.name, ']'), Piece("", '('), Piece(f.areaFile, '#'), Piece(f.id, ')'), Piece(" | ", '`'),
     Piece(f.id, '`'), Piece(" ", '|'), Piece(" " + TrimSuffix(f.areaFile, ".md") + " ", '|'),
     Piece(" " + f.tier + " ", '|'), Piece(" " + f.status + " ", '|'), Piece("", '\n')]
  }

  lemma GlueSnoc(pieces: seq<Piece>, p: Piece)
    ensures Glue(pieces + [p]) == Glue(pieces) + p.text + [p.sep]
  {
    assert (pieces + [p])[..|pieces|] == pieces;
  }

  lemma {:induction false} GlueAppend(a: seq<Piece>, b: seq<Piece>)
    ensures Glue(a + b) == Glue(a) + Glue(b)
  {
    hide Glue;
    if b == [] {
      assert a + b == a;
      GlueNil();
    } else {
      var n := |b| - 1;
      GlueAppend(a, b[..n]);
      assert a + b == a + b[..n] + [b[n]] && b == b[..n] + [b[n]];
      GlueSnoc(a + b[..n], b[n]);
      GlueSnoc(b[..n], b[n]);
      Regroup(Glue(a), Glue(b[..n]), b[n].text, [b[n].sep]);
    }
  }

  ghost predicate FieldHoldsEnd(f: Feature) {
    Contains(f.name, END) || Contains(f.areaFile, END) || Contains(f.id, END) || Contains(f.tier, END) ||
    Contains(f.status, END)
  }

  lemma PrefixContains(s: string, t: string)
    requires s <= t && Contains(s, END)
    ensures Contains(t, END)
  {
    var k: nat :| k <= |s| && OccursAt(s, END, k);
    assert OccursAt(t, END, k) by { assert t[k..k + |END|] == s[k..k + |END|]; }
  }

  lemma RowPiecesHold(f: Feature)
    ensures SomeHolds(RowPieces(f)) <==> FieldHoldsEnd(f)
    ensures forall p | p in RowPieces(f) :: p.sep !in END
  {
    hide Contains, TrimSuffix;
    var ps := RowPieces(f);
    var area := TrimSuffix(f.areaFile, ".md");
    assert !Contains(ps[0].text, END) && !Contains(ps[2].text, END) && !Contains(ps[5].text, END) &&
           !Contains(ps[7].text, END) && !Contains(ps[11].text, END) by {
      NoMarker("");
      NoMarker("| ");
      NoMarker(" | ");
      NoMarker(" ");
    }
    assert Contains(ps[8].text, END) == Contains(area, END) && Contains(ps[9].text, END) == Contains(f.tier, END) &&
           Contains(ps[10].text, END) == Contains(f.status, END) by {
      Blanks(area);
      Blanks(f.tier);
      Blanks(f.status);
    }
    if Contains(area, END) { PrefixContains(area, f.areaFile); }
    TwelvePieces(ps);
    SeparatorsAreFree();
  }

  lemma TwelvePieces(ps: seq<Piece>)
    requires |ps| == 12
    ensures SomeHolds(ps) <==>
      Contains(ps[0].text, END) || Contains(ps[1].text, END) || Contains(ps[2].text, END) ||
      Contains(ps[3].text, END) || Contains(ps[4].text, END) || Contains(ps[5].text, END) ||
      Contains(ps[6].text, END) || Contains(ps[7].text, END) || Contains(ps[8].text, END) ||
      Contains(ps[9].text, END) || Contains(ps[10].text, END) || Contains(ps[11].text, END)
  {
    hide Contains;
  }

  lemma SeparatorsAreFree()
    ensures '[' !in END && ']' !in END && '(' !in END && '#' !in END && ')' !in END && '`' !in END &&
            '|' !in END && '\n' !in END
  {
    assert END == "<!-- END " + "GENERATED -->";
    NotInMarker('[');
    NotInMarker(']');
    NotInMarker('(');
    NotInMarker('#');
    NotInMarker(')');
    NotInMarker('`');
    NotInMarker('|');
    NotInMarker('\n');
  }

  lemma NotInMarker(c: char)
    requires c in "[](#)`|\n"
    ensures c !in "<!-- END " + "GENERATED -->"
  {
  }

  lemma HeadIsGlued(f: Feature)
    ensures Glue(RowPieces(f)[..6]) == "| [" + f.name + "](" + f.areaFile + "#" + f.id + ") | `"
  {
    hide Glue, TrimSuffix;
    var p := RowPieces(f);
    var r3 := "| [" + f.name + "](";
    assert Glue(p[..3]) == r3 by { GlueAt(p, 0); GlueAt(p, 1); GlueAt(p, 2); Literals("| [" + f.name); }
    var r5 := r3 + f.areaFile + "#" + f.id;
    assert Glue(p[..6]) == r5 + ") | `" by { GlueAt(p, 3); GlueAt(p, 4); GlueAt(p, 5); Literals(r5); }
  }

  lemma RowIsGlued(f: Feature)
    ensures Row(f) == Glue(RowPieces(f))
  {
    hide Glue, TrimSuffix;
    var p := RowPieces(f);
    HeadIsGlued(f);
    var area := TrimSuffix(f.areaFile, ".md");
    var r7 := "| [" + f.name + "](" + f.areaFile + "#" + f.id + ") | `" + f.id;
    assert Glue(p[..8]) == r7 + "` |" by { GlueAt(p, 6); GlueAt(p, 7); Literals(r7); }
    var r8 := r7 + "` | " + area;
    assert Glue(p[..9]) == r8 + " |" by { GlueAt(p, 8); Cell(r7, area); }
    var r9 := r8 + " | " + f.tier;
    assert Glue(p[..10]) == r9 + " |" by { GlueAt(p, 9); Cell(r8, f.tier); }
    var r10 := r9 + " | " + f.status;
    assert Glue(p[..11]) == r10 + " |" by { GlueAt(p, 10); Cell(r9, f.status); }
    assert Glue(p[..12]) == r10 + " |\n" by { GlueAt(p, 11); Literals(r10); }
    assert p[..12] == p;
  }

  lemma Literals(x: string)
    ensures x + "]" + "" + "(" == x + "]("
    ensures x + ")" + " | " + "`" == x + ") | `"
    ensures x + "`" + " " + "|" == x + "` |"
    ensures x + " |" + "" + "\n" == x + " |\n"
  {
  }

  lemma Cell(x: string, t: string)
    ensures x + "` |" + (" " + t + " ") + "|" == x + "` | " + t + " |"
    ensures x + " |" + (" " + t + " ") + "|" == x + " | " + t + " |"
  {
  }

  lemma GlueAt(p: seq<Piece>, i: nat)
    requires i < |p|
    ensures Glue(p[..i + 1]) == Glue(p[..i]) + p[i].text + [p[i].sep]
    ensures Glue(p[..0]) == ""
  {
    assert p[..i + 1] == p[..i] + [p[i]];
    GlueSnoc(p[..i], p[i]);
  }

  function Pieces(features: seq<Feature>): seq<Piece> {
    if features == [] then [] else Pieces(features[..|features| - 1]) + RowPieces(features[|features| - 1])
  }

  lemma {:induction false} RowsHold(features: seq<Feature>)
    ensures Rows(features) == Glue(Pieces(features))
    ensures forall p | p in Pieces(features) :: p.sep !in END
    ensures SomeHolds(Pieces(features)) <==> exists f | f in features :: FieldHoldsEnd(f)
  {
    hide Row, RowPieces, Glue, FieldHoldsEnd, Contains;
    if features == [] {
      assert Glue([]) == "" by { GlueNil(); }
    } else {
      var n := |features| - 1;
      RowsHold(features[..n]);
      RowIsGlued(features[n]);
      RowPiecesHold(features[n]);
      GlueAppend(Pieces(features[..n]), RowPieces(features[n]));
      SomeHoldsAppend(Pieces(features[..n]), RowPieces(features[n]));
      assert features == features[..n] + [features[n]];
    }
  }

  lemma GlueNil()
    ensures Glue([]) == ""
  {
  }

  lemma SomeHoldsAppend(a: seq<Piece>, b: seq<Piece>)
    ensures SomeHolds(a + b) <==> SomeHolds(a) || SomeHolds(b)
  {
    hide Contains;
    var c := a + b;
    if SomeHolds(a) {
      var i :| 0 <= i < |a| && Contains(a[i].text, END);
      assert c[i] == a[i];
    }
    if SomeHolds(b) {
      var i :| 0 <= i < |b| && Contains(b[i].text, END);
      assert c[|a| + i] == b[i];
    }
  }

  /** The end marker stands before the end of the rendering exactly when a field of a feature holds it. */
  lemma BodyHoldsEnd(features: seq<Feature>)
    ensures Contains(Body(features), END) <==> exists f | f in features :: FieldHoldsEnd(f)
  {
    hide Contains, Rows, FieldHoldsEnd, Decimal;
    var intro := "_" + Decimal(|features|) + REGENERATE + TABLE_HEAD;
    IntroIsPlain(|features|);
    NoMarker(intro);
    BeginIsNotEnd();
    RowsHold(features);
    GlueContains(Pieces(features));
    ContainsSplit(BEGIN + "\n" + intro, '\n', Rows(features), END);
    ContainsSplit(BEGIN, '\n', intro, END);
  }

  lemma IntroIsPlain(n: nat)
    ensures '<' !in "_" + Decimal(n) + REGENERATE + TABLE_HEAD
  {
    hide Decimal;
    assert !IsDigit('<');
    assert '<' !in "_" + Decimal(n);
    assert '<' !in REGENERATE by { RegenerateIsPlain(); }
    assert '<' !in TABLE_HEAD by { HeadIsPlain(); }
  }

  lemma RegenerateIsPlain()
    ensures '<' !in REGENERATE
  {
    assert '<' !in " features. " && '<' !in "Regenerate with " && '<' !in "`go run ./cmd" && '<' !in "/docgen ";
    assert '<' !in "-write`._\n\n";
  }

  lemma HeadIsPlain()
    ensures '<' !in TABLE_HEAD
  {
    assert '<' !in "| Feature | ID " && '<' !in "| Area | Tier " && '<' !in "| Status |\n";
    assert '<' !in "|---|---|" && '<' !in "---|---|---|";
  }

  lemma BeginIsNotEnd()
    ensures !Contains(BEGIN, END)
  {
    assert END[0] == '<' && END[5] == 'E';
    forall k: nat | k <= |BEGIN| ensures !OccursAt(BEGIN, END, k) {
      CharUnder(BEGIN, END, k, 0);
      CharUnder(BEGIN, END, k, 5);
    }
  }

  // ---- Updating and checking ----

  /** The first character of a marker occurs nowhere else in it. */
  ghost predicate Headed(m: string) {
    m != [] && forall j | 0 < j < |m| :: m[j] != m[0]
  }

  lemma MarkersAreHeaded()
    ensures Headed(BEGIN) && Headed(END) && BEGIN[0] == END[0] == '<'
  {
    assert forall j | 0 < j < |BEGIN| :: BEGIN[j] != '<';
    assert forall j | 0 < j < |END| :: END[j] != '<';
  }

  /** Splicing in a text that starts like the marker makes no marker straddle the splice point. */
  lemma FirstInSplice(pre: string, r: string, post: string, m: string, j: nat)
    requires Headed(m) && r != [] && r[0] == m[0]
    requires forall k: nat | k + |m| <= |pre| :: !OccursAt(pre, m, k)
    requires OccursAt(r, m, j) && forall k: nat | k < j :: !OccursAt(r, m, k)
    ensures Index(pre + r + post, m) == Some(|pre| + j)
  {
    hide Index, OccursAt;
    var out := pre + r + post;
    OccursWithin(pre, r, post, m, j);
    forall k: nat | k < |pre| + j ensures !OccursAt(out, m, k) {
      if k + |m| <= |pre| {
        OccursInside([], pre, r + post, m, k);
        assert out == [] + pre + (r + post);
      } else if k < |pre| {
        CharUnder(out, m, k, |pre| - k);
        assert out[|pre|] == r[0];
      } else {
        OccursInside(pre, r, post, m, k - |pre|);
      }
    }
    IndexIs(out, m, |pre| + j);
  }

  lemma OccursWithin(pre: string, r: string, post: string, m: string, j: nat)
    requires OccursAt(r, m, j)
    ensures j + |m| <= |r| && OccursAt(pre + r + post, m, |pre| + j)
  {
    OccursInside(pre, r, post, m, j);
  }

  /** Before the first marker there is none. */
  lemma NoneBefore(src: string, m: string, at: nat, bound: nat)
    requires Index(src, m) == Some(at) && bound <= at && bound <= |src|
    ensures forall k: nat | k + |m| <= bound && m != [] :: !OccursAt(src[..bound], m, k)
  {
    hide Index, OccursAt;
    forall k: nat | k + |m| <= bound && m != [] ensures !OccursAt(src[..bound], m, k) {
      OccursInside([], src[..bound], src[bound..], m, k);
      assert [] + src[..bound] + src[bound..] == src;
    }
  }

  /** The first end marker of a text that ends in one. */
  lemma FirstEnd(body: string) returns (j: nat)
    ensures OccursAt(body + END, END, j) && forall k: nat | k < j :: !OccursAt(body + END, END, k)
    ensures j <= |body|
    ensures j == |body| <==> !Contains(body, END)
  {
    hide Index, OccursAt;
    var r := body + END;
    if Contains(body, END) {
      var k: nat :| k <= |body| && OccursAt(body, END, k);
      OccursWithin([], body, END, END, k);
      OccursFits(body, END, k);
      assert [] + body + END == r;
      assert Contains(r, END);
      j := Index(r, END).value;
    } else {
      MarkersAreHeaded();
      Whole(END);
      FirstInSplice(body, END, [], END, 0);
      assert body + END + [] == r;
      j := |body|;
    }
  }

  /** The rendering starts with the begin marker, and its first end marker is its last unless a field holds one. */
  lemma RenderEnds(features: seq<Feature>) returns (j: nat)
    ensures OccursAt(Render(features), BEGIN, 0)
    ensures OccursAt(Render(features), END, j) && forall k: nat | k < j :: !OccursAt(Render(features), END, k)
    ensures j <= |Body(features)|
    ensures j == |Body(features)| <==> forall f | f in features :: !FieldHoldsEnd(f)
  {
    hide Contains, FieldHoldsEnd, Body, OccursAt;
    BodyHoldsEnd(features);
    BodyBegins(features);
    j := FirstEnd(Body(features));
  }

  lemma OccursFits(s: string, m: string, k: nat)
    requires OccursAt(s, m, k)
    ensures k + |m| <= |s|
  {
  }

  lemma Whole(m: string)
    ensures OccursAt(m, m, 0)
  {
  }

  lemma BodyBegins(features: seq<Feature>)
    ensures OccursAt(Render(features), BEGIN, 0)
  {
    hide Rows, Decimal;
    assert BEGIN <= Body(features);
    assert Render(features)[..|BEGIN|] == BEGIN;
  }

  lemma MarkersOfUpdate(src: string, features: seq<Feature>) returns (j: nat)
    requires Markers(src).Some?
    ensures j <= |Body(features)|
    ensures j == |Body(features)| <==> forall f | f in features :: !FieldHoldsEnd(f)
    ensures Markers(Updated(src, features)) == Some((Markers(src).value.0, Markers(src).value.0 + j))
  {
    hide Index, FieldHoldsEnd, Body, OccursAt;
    var (bi, ei) := Markers(src).value;
    var pre, r, post := src[..bi], Render(features), src[ei + |END|..];
    j := RenderEnds(features);
    MarkersAreHeaded();
    NoneBefore(src, BEGIN, bi, bi);
    NoneBefore(src, END, ei, bi);
    CharUnder(r, BEGIN, 0, 0);
    FirstInSplice(pre, r, post, BEGIN, 0);
    FirstInSplice(pre, r, post, END, j);
  }

  /** The check is silent exactly on the texts that an update leaves alone. */
  lemma CleanIffUnchanged(src: string, features: seq<Feature>)
    requires Markers(src).Some? && features != []
    ensures Check(Some(src), features) == Clean <==> Updated(src, features) == src
  {
    hide Index, Render, OccursAt;
    var (bi, ei) := Markers(src).value;
    var r := Render(features);
    var out := Updated(src, features);
    assert src == src[..bi] + src[bi..ei + |END|] + src[ei + |END|..];
    if out == src {
      assert |r| == ei + |END| - bi;
      assert out[bi..bi + |r|] == r;
    }
  }

  /** The text outside the markers survives, and the rendering stands between its two halves. */
  lemma OutsideSurvives(src: string, features: seq<Feature>)
    requires Markers(src).Some?
    ensures
      var (bi, ei) := Markers(src).value;
      var out, r := Updated(src, features), Render(features);
      |out| == |src| - (ei + |END| - bi) + |r| &&
      out[..bi] == src[..bi] && out[bi..bi + |r|] == r && out[bi + |r|..] == src[ei + |END|..]
  {
    hide Index, Render, OccursAt;
  }

  /**
   After an update the markers are valid; the check is then silent, and a second update changes
   nothing, exactly when no field of a feature holds the end marker.
   */
  lemma UpdateSettlesIff(src: string, features: seq<Feature>)
    requires Markers(src).Some? && features != []
    ensures
      var out := Updated(src, features);
      Markers(out).Some? &&
      (Check(Some(out), features) == Clean <==> forall f | f in features :: !FieldHoldsEnd(f)) &&
      (Updated(out, features) == out <==> forall f | f in features :: !FieldHoldsEnd(f))
  {
    hide Index, Render, OccursAt, FieldHoldsEnd, Markers, Updated, Check, Body;
    var out := Updated(src, features);
    var j := MarkersOfUpdate(src, features);
    OutsideSurvives(src, features);
    CleanIffUnchanged(out, features);
    RenderLength(features);
    SettledAt(out, features, Markers(src).value.0, j);
  }

  lemma RenderLength(features: seq<Feature>)
    ensures |Render(features)| == |Body(features)| + |END|
  {
    hide Body;
  }

  lemma SettledAt(out: string, features: seq<Feature>, bi: nat, j: nat)
    requires features != [] && Markers(out) == Some((bi, bi + j))
    requires bi + |Render(features)| <= |out| && out[bi..bi + |Render(features)|] == Render(features)
    ensures Check(Some(out), features) == Clean <==> j + |END| == |Render(features)|
  {
    hide Index, Render, OccursAt;
  }

  // ---- Files cut short ----

  lemma PrefixOccurs(src: string, n: nat, m: string, k: nat)
    requires n <= |src|
    ensures OccursAt(src[..n], m, k) <==> k + |m| <= n && OccursAt(src, m, k)
  {
    if k + |m| <= n { assert src[..n][k..k + |m|] == src[k..k + |m|]; }
  }

  lemma PrefixIndex(src: string, n: nat, m: string)
    requires n <= |src| && Index(src, m).Some?
    ensures
      var at := Index(src, m).value;
      if at + |m| <= n then Index(src[..n], m) == Some(at) else Index(src[..n], m).None?
  {
    hide OccursAt, IndexFrom;
    var at := Index(src, m).value;
    forall k: nat ensures OccursAt(src[..n], m, k) <==> k + |m| <= n && OccursAt(src, m, k) {
      PrefixOccurs(src, n, m, k);
    }
    if at + |m| <= n {
      IndexIs(src[..n], m, at);
    }
  }

  /** The begin marker of a text with valid markers ends before the end marker does. */
  lemma BeginFits(src: string)
    requires Markers(src).Some?
    ensures Markers(src).value.0 + |BEGIN| <= Markers(src).value.1 + |END|
  {
    hide Index, OccursAt;
    var (bi, ei) := Markers(src).value;
    MarkersAreHeaded();
    CharUnder(src, END, ei, 0);
    CharUnder(src, END, ei, 5);
    CharUnder(src, BEGIN, bi, 5);
    assert BEGIN[5] == 'B' && END[5] == 'E';
    if bi < ei < bi + |BEGIN| { CharUnder(src, BEGIN, bi, ei - bi); }
  }

  /**
   A write that stops midway is noticed exactly when it stops inside the block: then the markers are
   gone, and the check says so. Once the block is out, the check is silent however much of the text
   behind it is lost.
   */
  lemma CutShortIsNoticedIff(src: string, features: seq<Feature>, n: nat)
    requires features != [] && n <= |src| && Markers(src).Some? && Check(Some(src), features) == Clean
    ensures
      Check(Some(src[..n]), features) ==
        if Markers(src).value.1 + |END| <= n then Clean else MarkersAreMissing
  {
    hide Index, OccursAt, Render;
    var (bi, ei) := Markers(src).value;
    BeginFits(src);
    PrefixIndex(src, n, BEGIN);
    PrefixIndex(src, n, END);
    if ei + |END| <= n {
      assert src[..n][bi..ei + |END|] == src[bi..ei + |END|];
    }
  }
}
