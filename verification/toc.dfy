/** The table of contents beside a post: which headings it lists, and which one is marked active while scrolling. */
module TableOfContents {
  import opened Wrappers

  /** The height of the fixed header, in pixels. */
  const HeaderHeight: int := 56

  /** A heading counts as reached once its top is at most this far below the viewport's top. */
  const Threshold: int := HeaderHeight + 20

  /** An entry of `recordMap.block`, in key order: its id and its block value, when there is one. */
  datatype BlockRecord = BlockRecord(id: string, value: Option<BlockValue>)

  datatype BlockValue = BlockValue(kind: string)

  /** A heading of the table of contents. */
  datatype Entry = Entry(id: string, indentLevel: int)

  /** A page is a first block with a non-empty id and a value of type `page`. */
  predicate IsPage(blocks: seq<BlockRecord>) {
    |blocks| > 0 && blocks[0].id != "" && blocks[0].value.Some? && blocks[0].value.value.kind == "page"
  }

  /**
   * `toc`: the headings of the page block, or none when the record map is empty, its first key is
   * empty, or the first block is missing or not a page. `headingsOf` stands for
   * `getPageTableOfContents`.
   */
  function Toc(blocks: seq<BlockRecord>, headingsOf: BlockValue -> seq<Entry>): (r: seq<Entry>)
    ensures !IsPage(blocks) ==> r == []
    ensures IsPage(blocks) ==> r == headingsOf(blocks[0].value.value)
  {
    if |blocks| == 0 || blocks[0].id == "" then []
    else
      var page := blocks[0].value;
      if page.None? || page.value.kind != "page" then [] else headingsOf(page.value)
  }

  /** A heading with the top of its element at scroll time, or `None` when no element is found for it. */
  datatype Heading = Heading(id: string, top: Option<int>)

  function Headings(toc: seq<Entry>, topOf: string -> Option<int>): (hs: seq<Heading>)
    ensures |hs| == |toc|
    ensures forall i | 0 <= i < |toc| :: hs[i] == Heading(toc[i].id, topOf(toc[i].id))
  {
    seq(|toc|, i requires 0 <= i < |toc| => Heading(toc[i].id, topOf(toc[i].id)))
  }

  predicate Below(h: Heading) {
    h.top.Some? && h.top.value > Threshold
  }

  /** The index of the first heading whose element is below the threshold, or `|hs|` when there is none. */
  function Stop(hs: seq<Heading>): (k: nat)
    ensures k <= |hs|
    ensures forall j | 0 <= j < k :: !Below(hs[j])
    ensures k < |hs| ==> Below(hs[k])
  {
    if |hs| == 0 then 0
    else if Below(hs[0]) then 0
    else 1 + Stop(hs[1..])
  }

  predicate HasPresent(hs: seq<Heading>) {
    exists i | 0 <= i < |hs| :: hs[i].top.Some?
  }

  /** The id of the last heading whose element was found, if any. */
  function LastPresent(hs: seq<Heading>): (r: Option<string>)
    ensures r.Some? <==> HasPresent(hs)
  {
    if |hs| == 0 then None
    else if hs[|hs| - 1].top.Some? then Some(hs[|hs| - 1].id)
    else
      HasPresentDropLast(hs);
      LastPresent(hs[..|hs| - 1])
  }

  /** The last found heading is one of the headings, and one whose element was found. */
  lemma {:induction false} LastPresentFound(hs: seq<Heading>)
    requires LastPresent(hs).Some?
    ensures exists i | 0 <= i < |hs| :: hs[i].top.Some? && hs[i].id == LastPresent(hs).value
    decreases |hs|
  {
    if hs[|hs| - 1].top.None? {
      var init := hs[..|hs| - 1];
      LastPresentFound(init);
      var i :| 0 <= i < |init| && init[i].top.Some? && init[i].id == LastPresent(init).value;
      assert hs[i] == init[i];
    }
  }

  /** The active heading: the last found heading before the first one below the threshold, else `""`. */
  function Active(hs: seq<Heading>): string {
    var last := LastPresent(hs[..Stop(hs)]);
    if last.Some? then last.value else ""
  }

  /** `handleScroll`: walk the headings in order, skip those without an element, stop at the first below the threshold. */
  method HandleScroll(toc: seq<Entry>, topOf: string -> Option<int>) returns (current: string)
    ensures current == Active(Headings(toc, topOf))
  {
    ghost var hs := Headings(toc, topOf);
    ghost var last: Option<string> := None;
    current := "";
    var i := 0;
    while i < |toc|
      invariant 0 <= i <= Stop(hs)
      invariant last == LastPresent(hs[..i])
      invariant current == (if last.Some? then last.value else "")
    {
      var top := topOf(toc[i].id);
      if top.None? {
        assert hs[..i + 1][..i] == hs[..i];
        i := i + 1;
        continue;
      }
      if top.value <= Threshold {
        current := toc[i].id;
        last := Some(current);
        assert hs[..i + 1][i] == hs[i];
        i := i + 1;
      } else {
        break;
      }
    }
    assert hs[..Stop(hs)] == hs[..i];
  }

  /** On mount: nothing is rendered and no scroll handler is installed for an empty table; else the first scan sets the active id. */
  function Mount(toc: seq<Entry>, topOf: string -> Option<int>): (r: (bool, string))
    ensures r.0 <==> |toc| > 0
    ensures !r.0 ==> r.1 == ""
  {
    if |toc| == 0 then (false, "") else (true, Active(Headings(toc, topOf)))
  }

  /** A page that is not of type `page` shows no table of contents. */
  lemma NonPageShowsNothing(blocks: seq<BlockRecord>, headingsOf: BlockValue -> seq<Entry>,
                            topOf: string -> Option<int>)
    requires |blocks| > 0 && blocks[0].value.Some? && blocks[0].value.value.kind != "page"
    ensures Mount(Toc(blocks, headingsOf), topOf) == (false, "")
  {
  }

  /** The active id is a heading that was found and is within the threshold, or `""`. */
  lemma ActiveIsReached(hs: seq<Heading>)
    ensures Active(hs) == "" || exists i | 0 <= i < |hs| ::
      hs[i].id == Active(hs) && hs[i].top.Some? && hs[i].top.value <= Threshold
  {
    var k := Stop(hs);
    var last := LastPresent(hs[..k]);
    if last.Some? {
      LastPresentFound(hs[..k]);
      var i :| 0 <= i < k && hs[..k][i].top.Some? && hs[..k][i].id == last.value;
      assert hs[i] == hs[..k][i];
    }
  }

  /** When no found heading is within the threshold, the active id is `""`. */
  lemma NoneReached(hs: seq<Heading>)
    requires forall i | 0 <= i < |hs| :: hs[i].top.Some? ==> hs[i].top.value > Threshold
    ensures Active(hs) == ""
  {
    var k := Stop(hs);
    assert !HasPresent(hs[..k]) by {
      forall i | 0 <= i < k ensures hs[..k][i].top.None? {
        assert hs[..k][i] == hs[i];
      }
    }
  }

  lemma {:induction false} StopAppend(a: seq<Heading>, b: seq<Heading>)
    ensures Stop(a + b) == if Stop(a) < |a| then Stop(a) else |a| + Stop(b)
    decreases |a|
  {
    if |a| > 0 {
      assert (a + b)[0] == a[0];
      assert (a + b)[1..] == a[1..] + b;
      StopAppend(a[1..], b);
    } else {
      assert a + b == b;
    }
  }

  lemma {:induction false} LastPresentAppend(a: seq<Heading>, b: seq<Heading>)
    ensures LastPresent(a + b) == if HasPresent(b) then LastPresent(b) else LastPresent(a)
    decreases |b|
  {
    if |b| == 0 {
      assert a + b == a;
    } else {
      var ab := a + b;
      assert ab[|ab| - 1] == b[|b| - 1];
      if b[|b| - 1].top.None? {
        var b' := b[..|b| - 1];
        assert ab[..|ab| - 1] == a + b';
        LastPresentAppend(a, b');
        HasPresentDropLast(b);
      }
    }
  }

  /** Dropping a last heading that has no element keeps whether some heading has one. */
  lemma HasPresentDropLast(b: seq<Heading>)
    requires |b| > 0 && b[|b| - 1].top.None?
    ensures HasPresent(b) == HasPresent(b[..|b| - 1])
  {
    if HasPresent(b) {
      var i :| 0 <= i < |b| && b[i].top.Some?;
      assert b[..|b| - 1][i] == b[i];
    }
    if HasPresent(b[..|b| - 1]) {
      var i :| 0 <= i < |b| - 1 && b[..|b| - 1][i].top.Some?;
      assert b[i] == b[..|b| - 1][i];
    }
  }

  /** A heading without an element, anywhere in the list, does not change the active id. */
  lemma AbsentSkipped(a: seq<Heading>, id: string, b: seq<Heading>)
    ensures Active(a + [Heading(id, None)] + b) == Active(a + b)
  {
    var x := [Heading(id, None)];
    assert a + x + b == a + (x + b);
    StopAppend(a, x + b);
    StopAppend(a, b);
    if Stop(a) == |a| {
      AbsentSkippedAfter(a, x, b);
    } else {
      assert (a + (x + b))[..Stop(a)] == a[..Stop(a)];
      assert (a + b)[..Stop(a)] == a[..Stop(a)];
    }
  }

  lemma AbsentSkippedAfter(a: seq<Heading>, x: seq<Heading>, b: seq<Heading>)
    requires Stop(a) == |a| && |x| == 1 && x[0].top.None?
    ensures Active(a + (x + b)) == Active(a + b)
  {
    ScannedWithAbsent(a, x, b);
    ScannedPrefix(a, b);
    AbsentPrefixSkipped(a, x, b[..Stop(b)]);
  }

  /** When nothing in `a` is below the threshold, the scanned part of `a + b` is `a` and the scanned part of `b`. */
  lemma ScannedPrefix(a: seq<Heading>, b: seq<Heading>)
    requires Stop(a) == |a|
    ensures (a + b)[..Stop(a + b)] == a + b[..Stop(b)]
  {
    StopAppend(a, b);
  }

  lemma ScannedWithAbsent(a: seq<Heading>, x: seq<Heading>, b: seq<Heading>)
    requires Stop(a) == |a| && |x| == 1 && x[0].top.None?
    ensures (a + (x + b))[..Stop(a + (x + b))] == a + (x + b[..Stop(b)])
  {
    assert x[1..] == [] && !Below(x[0]);
    assert Stop(x) == 1;
    ScannedPrefix(x, b);
    ScannedPrefix(a, x + b);
  }

  lemma AbsentPrefixSkipped(a: seq<Heading>, x: seq<Heading>, c: seq<Heading>)
    requires |x| == 1 && x[0].top.None?
    ensures LastPresent(a + (x + c)) == LastPresent(a + c)
  {
    LastPresentAppend(x, c);
    assert x[..0] == [];
    assert LastPresent(x + c) == LastPresent(c);
    LastPresentAppend(a, x + c);
    LastPresentAppend(a, c);
  }
}
