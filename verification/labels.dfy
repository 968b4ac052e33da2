/**
 * The cluster labels of the explore page (app/pages/1_Explore_Clusters.py):
 * the select-box options are built from the keyword rows of a channel, and
 * the chosen option is parsed back into a cluster id.
 */
module ClusterLabels {
  import opened Wrappers
  import opened Strings

  /** One row of the keywords table: a cluster id and its keywords. */
  datatype KeywordRow = KeywordRow(clusterId: int, keywords: seq<string>)

  /** What the select box hands back: a bare cluster id (fallback list) or a label. */
  datatype Choice = IdChoice(id: int) | LabelChoice(text: string)

  /** The Python exceptions the parse can end in. */
  datatype ParseError = TypeError | IndexError | ValueError

  /** The marker placed in front of the id. */
  const IdMarker: string := "(ID: "

  /** `", ".join(keywords) + f" (ID: {cluster_id})"`. */
  function Label(row: KeywordRow): (r: string)
  {
    Join(row.keywords, ", ") + " " + IdMarker + IntToString(row.clusterId) + ")"
  }

  /**
   * The select-box options: without keyword rows, the cluster ids themselves;
   * otherwise one label per row, in row order.
   */
  function ChoiceList(rows: seq<KeywordRow>, ids: seq<int>): (r: seq<Choice>)
    ensures |rows| == 0 ==> |r| == |ids| && forall i :: 0 <= i < |ids| ==> r[i] == IdChoice(ids[i])
    ensures |rows| > 0 ==> |r| == |rows| && forall i :: 0 <= i < |rows| ==> r[i] == LabelChoice(Label(rows[i]))
  {
    if |rows| == 0 then seq(|ids|, i requires 0 <= i < |ids| => IdChoice(ids[i]))
    else seq(|rows|, i requires 0 <= i < |rows| => LabelChoice(Label(rows[i])))
  }

  /** `int(text)` with its ValueError as `None`, then the fallback `int(s)` of the except branch. */
  function ParseOrFallBack(text: string, s: string): (r: Result<int, ParseError>)
    ensures r.Err? ==> r.error == ValueError
    ensures ParseInt(text).Some? ==> r == Ok(ParseInt(text).value)
  {
    match ParseInt(text)
    case Some(n) => Ok(n)
    case None =>
      match ParseInt(s)
      case Some(n) => Ok(n)
      case None => Err(ValueError)
  }

  /**
   * The parse as written: `int(s.split("(ID: ")[1].split(")")[0])`, falling
   * back to `int(s)` on AttributeError or ValueError. `None` (an empty select
   * box) has no `split`, and `int(None)` raises TypeError; a bare id has no
   * `split` either and falls back to itself; a label without the marker has
   * no piece 1 and raises IndexError, which is not caught.
   */
  function ParseSelection(sel: Option<Choice>): (r: Result<int, ParseError>)
    ensures r == Err(TypeError) <==> sel.None?
    ensures sel.Some? && sel.value.IdChoice? ==> r == Ok(sel.value.id)
  {
    match sel
    case None => Err(TypeError)
    case Some(IdChoice(n)) => Ok(n)
    case Some(LabelChoice(s)) =>
      var parts := Split(s, IdMarker);
      if |parts| < 2 then Err(IndexError)
      else ParseOrFallBack(Split(parts[1], ")")[0], s)
  }

  /**
   * The corrected parse: the id is read after the LAST marker
   * (`s.rsplit("(ID: ", 1)[1]`), so keywords holding the marker, or
   * ending in a prefix of it, cannot capture the id.
   */
  function ParseSelectionFixed(sel: Option<Choice>): (r: Result<int, ParseError>)
    ensures r == Err(TypeError) <==> sel.None?
    ensures sel.Some? && sel.value.IdChoice? ==> r == Ok(sel.value.id)
  {
    match sel
    case None => Err(TypeError)
    case Some(IdChoice(n)) => Ok(n)
    case Some(LabelChoice(s)) =>
      var parts := Split(s, IdMarker);
      if |parts| < 2 then Err(IndexError)
      else ParseOrFallBack(Split(parts[|parts| - 1], ")")[0], s)
  }

  lemma MarkerUnbordered()
    ensures Unbordered(IdMarker)
  {
    forall d | 0 < d < |IdMarker|
      ensures IdMarker[d..] != IdMarker[..|IdMarker| - d]
    {
      assert IdMarker[..|IdMarker| - d][0] == '(';
      assert IdMarker[d..][0] == IdMarker[d] != '(';
    }
  }

  /** A string none of whose characters starts the pattern does not contain it. */
  lemma NoFirstCharNoContains(s: string, pat: string)
    requires |pat| > 0 && forall k :: 0 <= k < |s| ==> s[k] != pat[0]
    ensures !Contains(s, pat)
  {
    forall k: nat | k <= |s|
      ensures !OccursAt(s, pat, k)
    {
      if k + |pat| <= |s| {
        assert s[k..k + |pat|][0] == s[k];
      }
    }
  }

  /** A string holding the separator splits into at least two pieces. */
  lemma SplitFindsTwo(s: string, sep: string)
    requires |sep| > 0 && Contains(s, sep)
    ensures |Split(s, sep)| >= 2
  {
    FindSpec(s, sep);
  }

  /** The id text followed by `)` holds no marker, and its first `)`-piece is the id text. */
  lemma IdTail(id: int)
    ensures !Contains(IntToString(id) + ")", IdMarker)
    ensures Split(IntToString(id) + ")", ")")[0] == IntToString(id)
  {
    var d := IntToString(id);
    var b := d + ")";
    NoFirstCharNoContains(b, IdMarker);
    assert OccursAt(b, ")", |d|) by { assert b[|d|..|d| + 1] == ")"; }
    forall j: nat | j < |d|
      ensures !OccursAt(b, ")", j)
    {
      assert b[j..j + 1][0] == d[j];
    }
    SplitAtFirst(b, ")", |d|);
    assert b[..|d|] == d;
  }

  /** A label is the keyword text and a space, the marker, then the id and `)`. */
  lemma LabelShape(row: KeywordRow)
    ensures Label(row) == (Join(row.keywords, ", ") + " ") + IdMarker + (IntToString(row.clusterId) + ")")
  {
  }

  /**
   * As written, a label parses back to its id when the keyword text followed
   * by a space holds no marker: the first marker is then the one in front of
   * the id.
   */
  lemma LabelRoundTrip(row: KeywordRow)
    requires !Contains(Join(row.keywords, ", ") + " ", IdMarker)
    ensures ParseSelection(Some(LabelChoice(Label(row)))) == Ok(row.clusterId)
  {
    var a := Join(row.keywords, ", ") + " ";
    var b := IntToString(row.clusterId) + ")";
    var s := a + IdMarker + b;
    LabelShape(row);
    MarkerUnbordered();
    assert OccursAt(s, IdMarker, |a|) by { assert s[|a|..|a| + |IdMarker|] == IdMarker; }
    forall j: nat | j < |a|
      ensures !OccursAt(s, IdMarker, j)
    {
      if OccursAt(s, IdMarker, j) {
        OccursInside(a, IdMarker, b, j);
      }
    }
    SplitAtFirst(s, IdMarker, |a|);
    assert s[|a| + |IdMarker|..] == b;
    IdTail(row.clusterId);
    SplitWithoutSeparator(b, IdMarker);
    var parts := Split(s, IdMarker);
    assert parts[1] == b;
    IntToStringRoundTrip(row.clusterId);
  }

  /** The corrected parse recovers every row's id, whatever its keywords. */
  lemma FixedLabelRoundTrip(row: KeywordRow)
    ensures ParseSelectionFixed(Some(LabelChoice(Label(row)))) == Ok(row.clusterId)
  {
    var a := Join(row.keywords, ", ") + " ";
    var b := IntToString(row.clusterId) + ")";
    var s := a + IdMarker + b;
    LabelShape(row);
    MarkerUnbordered();
    IdTail(row.clusterId);
    SplitLastPiece(a, IdMarker, b);
    assert OccursAt(s, IdMarker, |a|) by { assert s[|a|..|a| + |IdMarker|] == IdMarker; }
    SplitFindsTwo(s, IdMarker);
    var parts := Split(s, IdMarker);
    assert parts[|parts| - 1] == b;
    IntToStringRoundTrip(row.clusterId);
  }

  /** The label of a row with one keyword and a one-digit id, spelled out. */
  lemma OneKeywordLabel(kw: string, id: nat) returns (s: string)
    requires id < 10
    ensures s == Label(KeywordRow(id, [kw])) && s == kw + " (ID: " + [DigitChar(id)] + ")"
  {
    assert Join([kw], ", ") == kw;
    s := Label(KeywordRow(id, [kw]));
  }

  /**
   * The label of keywords `["(ID:"]` and id 5 is `"(ID: (ID: 5)"`: the keyword
   * text holds no marker, yet the as-written parse fails with ValueError,
   * because the first marker straddles the keywords and the added space.
   */
  lemma StraddlingKeyword()
    ensures !Contains(Join(["(ID:"], ", "), IdMarker)
    ensures ParseSelection(Some(LabelChoice(Label(KeywordRow(5, ["(ID:"]))))) == Err(ValueError)
  {
    var s := OneKeywordLabel("(ID:", 5);
    assert s == "(ID: (ID: 5)";
    var parts := Split(s, IdMarker);
    StraddlingSplit(s);
    assert Split(parts[1], ")") == [""];
    assert ParseInt("") == None;
    ParseIntRejects(s, 0);
  }

  /** Its second marker-piece is empty: the first marker ends where the second begins. */
  lemma StraddlingSplit(s: string)
    requires s == "(ID: (ID: 5)"
    ensures |Split(s, IdMarker)| >= 2 && Split(s, IdMarker)[1] == ""
  {
    assert OccursAt(s, IdMarker, 0);
    SplitAtFirst(s, IdMarker, 0);
    var rest := s[|IdMarker|..];
    assert rest == "(ID: 5)";
    assert OccursAt(rest, IdMarker, 0);
    SplitAtFirst(rest, IdMarker, 0);
  }

  /**
   * The label of keywords `["(ID: 7)"]` and id 5 is `"(ID: 7) (ID: 5)"`. The
   * as-written parse reads the id after the first marker and returns 7, the
   * id written in the keywords, without any error. The corrected parse returns 5.
   */
  lemma CapturedId()
    ensures ParseSelection(Some(LabelChoice(Label(KeywordRow(5, ["(ID: 7)"]))))) == Ok(7)
    ensures ParseSelectionFixed(Some(LabelChoice(Label(KeywordRow(5, ["(ID: 7)"]))))) == Ok(5)
  {
    var s := OneKeywordLabel("(ID: 7)", 5);
    assert s == "(ID: 7) (ID: 5)";
    CapturedSplit(s);
    var piece := "7) ";
    assert OccursAt(piece, ")", 1) by { assert piece[1..2] == ")"; }
    forall j: nat | j < 1
      ensures !OccursAt(piece, ")", j)
    {
      assert piece[j..j + 1][0] == piece[j];
    }
    SplitAtFirst(piece, ")", 1);
    assert Split(piece, ")")[0] == "7";
    assert IntToString(7) == "7";
    IntToStringRoundTrip(7);
    FixedLabelRoundTrip(KeywordRow(5, ["(ID: 7)"]));
  }

  /** Its second marker-piece is the text between the two markers. */
  lemma CapturedSplit(s: string)
    requires s == "(ID: 7) (ID: 5)"
    ensures |Split(s, IdMarker)| >= 2 && Split(s, IdMarker)[1] == "7) "
  {
    assert OccursAt(s, IdMarker, 0);
    SplitAtFirst(s, IdMarker, 0);
    var rest := s[|IdMarker|..];
    assert rest == "7) (ID: 5)";
    CapturedRest(rest);
  }

  /** After the first marker, the next one starts three characters on. */
  lemma CapturedRest(rest: string)
    requires rest == "7) (ID: 5)"
    ensures |Split(rest, IdMarker)| >= 1 && Split(rest, IdMarker)[0] == "7) "
  {
    assert rest[..3] == "7) ";
    assert OccursAt(rest, IdMarker, 3) by { assert rest[3..8] == IdMarker; }
    assert !OccursAt(rest, IdMarker, 0) by { assert rest[0] != IdMarker[0]; }
    assert !OccursAt(rest, IdMarker, 1) by { assert rest[1] != IdMarker[0]; }
    assert !OccursAt(rest, IdMarker, 2) by { assert rest[2] != IdMarker[0]; }
    SplitAtFirst(rest, IdMarker, 3);
  }

  /** As written, a label raises IndexError exactly when it holds no marker. */
  lemma MissingMarker(s: string)
    ensures ParseSelection(Some(LabelChoice(s))) == Err(IndexError) <==> !Contains(s, IdMarker)
  {
    var parts := Split(s, IdMarker);
    if Contains(s, IdMarker) {
      SplitFindsTwo(s, IdMarker);
      var piece := Split(parts[1], ")")[0];
      assert ParseSelection(Some(LabelChoice(s))) == ParseOrFallBack(piece, s);
    } else {
      SplitWithoutSeparator(s, IdMarker);
    }
  }

  /** The corrected parse raises IndexError on exactly the same labels. */
  lemma MissingMarkerFixed(s: string)
    ensures ParseSelectionFixed(Some(LabelChoice(s))) == Err(IndexError) <==> !Contains(s, IdMarker)
  {
    var parts := Split(s, IdMarker);
    if Contains(s, IdMarker) {
      SplitFindsTwo(s, IdMarker);
      assert |parts| >= 2;
    } else {
      SplitWithoutSeparator(s, IdMarker);
    }
  }

  /**
   * Every option of the select box parses, with the corrected parse, to the
   * cluster id it stands for: the id itself without keyword rows, the row's
   * id otherwise.
   */
  lemma ChoicesParseBack(rows: seq<KeywordRow>, ids: seq<int>, i: nat)
    requires i < |ChoiceList(rows, ids)|
    ensures ParseSelectionFixed(Some(ChoiceList(rows, ids)[i])) == Ok(if |rows| == 0 then ids[i] else rows[i].clusterId)
  {
    if |rows| > 0 {
      FixedLabelRoundTrip(rows[i]);
    }
  }

  /**
   * With the parse as written, the same holds when no row's keyword text,
   * followed by a space, holds the marker.
   */
  lemma ChoicesParseBackAsWritten(rows: seq<KeywordRow>, ids: seq<int>, i: nat)
    requires i < |ChoiceList(rows, ids)|
    requires forall j :: 0 <= j < |rows| ==> !Contains(Join(rows[j].keywords, ", ") + " ", IdMarker)
    ensures ParseSelection(Some(ChoiceList(rows, ids)[i])) == Ok(if |rows| == 0 then ids[i] else rows[i].clusterId)
  {
    if |rows| > 0 {
      LabelRoundTrip(rows[i]);
    }
  }
}
