/**
 * How `fill_context` writes one batch (app/utils.py lines 71-78): every text
 * between an opening tag `<sep>` and a closing tag `</sep>`, followed by a
 * newline, all concatenated. `ReadBatch` reads such a batch back; the two are
 * inverse as long as no text contains the closing tag.
 */
module Batches {
  import opened Wrappers
  import opened Strings

  /** `f"<{separater}>"`. */
  function Open(sep: string): (r: string)
  {
    "<" + sep + ">"
  }

  /** `f"</{separater}>"` together with the newline that follows every text. */
  function Close(sep: string): (r: string)
  {
    "</" + sep + ">\n"
  }

  /** Line 76: one text between its tags. */
  function Wrap(text: string, sep: string): (r: string)
  {
    Open(sep) + text + Close(sep)
  }

  /** Lines 74-78: the wrapped texts of one batch, in order, concatenated. */
  function Render(batch: seq<string>, sep: string): (r: string)
  {
    if |batch| == 0 then "" else Wrap(batch[0], sep) + Render(batch[1..], sep)
  }

  /** Render every batch. */
  function RenderAll(bs: seq<seq<string>>, sep: string): (r: seq<string>)
    ensures |r| == |bs|
    ensures forall i :: 0 <= i < |bs| ==> r[i] == Render(bs[i], sep)
  {
    seq(|bs|, i requires 0 <= i < |bs| => Render(bs[i], sep))
  }

  /** A tag name the angle brackets cannot be confused with: no '<', '/' or newline. */
  predicate PlainTag(sep: string)
  {
    forall i :: 0 <= i < |sep| ==> sep[i] != '<' && sep[i] != '/' && sep[i] != '\n'
  }

  /** Drop `prefix` from the front of `s` when it is there. */
  function DropPrefix(s: string, prefix: string): (r: string)
    ensures |prefix| <= |s| && s[..|prefix|] == prefix ==> s == prefix + r
  {
    if |prefix| <= |s| && s[..|prefix|] == prefix then s[|prefix|..] else s
  }

  /**
   * Read a rendered batch back: split it at the closing tags, drop the empty
   * piece after the last one and the opening tag in front of every other piece.
   */
  function ReadBatch(s: string, sep: string): (texts: seq<string>)
  {
    var pieces := Split(s, Close(sep));
    seq(|pieces| - 1, i requires 0 <= i < |pieces| - 1 => DropPrefix(pieces[i], Open(sep)))
  }

  /** The closing tag of a plain tag name overlaps itself nowhere. */
  lemma CloseUnbordered(sep: string)
    requires PlainTag(sep)
    ensures Unbordered(Close(sep))
  {
    var e := Close(sep);
    assert |e| == |sep| + 4;
    assert e[|e| - 1] == '\n';
    forall d | 0 < d < |e|
      ensures e[d..] != e[..|e| - d]
    {
      var last := |e| - d - 1;
      assert e[d..][last] == '\n';
      if last == 0 {
        assert e[..|e| - d][last] == '<';
      } else if last == 1 {
        assert e[..|e| - d][last] == '/';
      } else if last < |sep| + 2 {
        assert e[..|e| - d][last] == sep[last - 2];
      } else {
        assert e[..|e| - d][last] == '>';
      }
    }
  }

  /** With a plain tag name, an opened text holds a closing tag only if the text itself does. */
  lemma OpenedHasNoClose(t: string, sep: string)
    requires PlainTag(sep) && !Contains(t, Close(sep))
    ensures !Contains(Open(sep) + t, Close(sep))
  {
    var o, e := Open(sep), Close(sep);
    var s := o + t;
    forall k: nat | k <= |s|
      ensures !OccursAt(s, e, k)
    {
      if k >= |o| {
        if k + |e| <= |s| {
          assert s[k..k + |e|] == t[k - |o|..k - |o| + |e|];
          assert !OccursAt(t, e, k - |o|);
        }
      } else if k == 0 {
        assert s[1] != e[1];
      } else {
        assert s[k] != e[0];
      }
    }
  }

  /** Splitting at the closing tags takes a rendered batch apart text by text. */
  lemma {:induction false} SplitRender(batch: seq<string>, sep: string)
    requires PlainTag(sep)
    requires forall i :: 0 <= i < |batch| ==> !Contains(batch[i], Close(sep))
    ensures var pieces := Split(Render(batch, sep), Close(sep));
      && |pieces| == |batch| + 1
      && pieces[|batch|] == ""
      && forall i :: 0 <= i < |batch| ==> pieces[i] == Open(sep) + batch[i]
    decreases |batch|
  {
    var e := Close(sep);
    if |batch| == 0 {
      assert !OccursAt("", e, 0);
      SplitWithoutSeparator("", e);
    } else {
      var a := Open(sep) + batch[0];
      var rest := Render(batch[1..], sep);
      assert Render(batch, sep) == a + e + rest;
      CloseUnbordered(sep);
      OpenedHasNoClose(batch[0], sep);
      SplitAfterFirst(a, e, rest);
      SplitRender(batch[1..], sep);
    }
  }

  /** When `a` holds no `sep` and `sep` cannot overlap itself, splitting `a + sep + b` first cuts off `a`. */
  lemma SplitAfterFirst(a: string, sep: string, b: string)
    requires |sep| > 0 && Unbordered(sep) && !Contains(a, sep)
    ensures Split(a + sep + b, sep) == [a] + Split(b, sep)
  {
    var s := a + sep + b;
    FindAfterFirst(a, sep, b);
    SplitAtFind(s, sep, |a|);
    assert s[..|a|] == a;
    assert s[|a| + |sep|..] == b;
  }

  /** When `a` holds no `sep` and `sep` cannot overlap itself, the first `sep` in `a + sep + b` is the one after `a`. */
  lemma FindAfterFirst(a: string, sep: string, b: string)
    requires Unbordered(sep) && !Contains(a, sep)
    ensures Find(a + sep + b, sep) == Some(|a|)
  {
    SeparatorFoundByAt(a, sep, b);
    FindSpec(a + sep + b, sep);
    var k := Find(a + sep + b, sep).value;
    if k < |a| {
      OccursInside(a, sep, b, k);
    }
  }

  /** Reading a rendered batch gives back its texts, in order. */
  lemma ReadRenderRoundTrip(batch: seq<string>, sep: string)
    requires PlainTag(sep)
    requires forall i :: 0 <= i < |batch| ==> !Contains(batch[i], Close(sep))
    ensures ReadBatch(Render(batch, sep), sep) == batch
  {
    SplitRender(batch, sep);
    var pieces := Split(Render(batch, sep), Close(sep));
    var r := ReadBatch(Render(batch, sep), sep);
    forall i | 0 <= i < |batch|
      ensures r[i] == batch[i]
    {
      assert pieces[i] == Open(sep) + batch[i];
      assert pieces[i][..|Open(sep)|] == Open(sep);
    }
  }

  /** Rendering an empty batch gives the empty string, and only then. */
  lemma RenderEmpty(batch: seq<string>, sep: string)
    ensures Render(batch, sep) == "" <==> |batch| == 0
  {
    if |batch| > 0 {
      assert |Render(batch, sep)| >= |Wrap(batch[0], sep)| > 0;
    }
  }
}
