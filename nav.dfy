/**
 * `highlightActiveNavLink`: on every scroll, the navigation link whose
 * `href` is `#<id>` of the section under the probe line (100px below the
 * top of the viewport) gets the class `active`; when several sections
 * contain the probe, the last one in document order wins, and when none
 * does, the links keep their classes.
 */
module NavHighlight {
  import opened Wrappers

  /** How far below the viewport's top edge the probe line sits. */
  const ProbeOffset: int := 100

  /** A `section[id]`: its `offsetTop`, `offsetHeight` and `id`. */
  datatype Section = Section(top: int, height: int, id: string)

  predicate Covers(sec: Section, pos: int)
  {
    sec.top <= pos < sec.top + sec.height
  }

  /** The id of the last section that covers `pos`, if any. */
  function LastCovering(sections: seq<Section>, pos: int): Option<string>
  {
    if sections == [] then None
    else if Covers(sections[|sections| - 1], pos) then Some(sections[|sections| - 1].id)
    else LastCovering(sections[..|sections| - 1], pos)
  }

  /** `LastCovering` finds a covering section after which no section covers `pos`. */
  lemma {:induction false} LastCoveringFound(sections: seq<Section>, pos: int)
    requires LastCovering(sections, pos).Some?
    ensures exists k ::
              && 0 <= k < |sections| && Covers(sections[k], pos)
              && sections[k].id == LastCovering(sections, pos).value
              && (forall m :: k < m < |sections| ==> !Covers(sections[m], pos))
  {
    var n := |sections|;
    if !Covers(sections[n - 1], pos) {
      var init := sections[..n - 1];
      LastCoveringFound(init, pos);
      var k :| 0 <= k < |init| && Covers(init[k], pos) && init[k].id == LastCovering(init, pos).value
        && forall m :: k < m < |init| ==> !Covers(init[m], pos);
      assert sections[k] == init[k];
      assert forall m :: k < m < n - 1 ==> sections[m] == init[m];
    }
  }

  /** `LastCovering` finds nothing only when no section covers `pos`. */
  lemma {:induction false} LastCoveringNone(sections: seq<Section>, pos: int)
    requires LastCovering(sections, pos).None?
    ensures forall k :: 0 <= k < |sections| ==> !Covers(sections[k], pos)
  {
    if sections != [] {
      var init := sections[..|sections| - 1];
      LastCoveringNone(init, pos);
      assert forall k :: 0 <= k < |init| ==> sections[k] == init[k];
    }
  }

  /** The link classes after marking the section `id`: only the links pointing to `#id`. */
  function Marked(hrefs: seq<Option<string>>, id: string): seq<bool>
  {
    seq(|hrefs|, k requires 0 <= k < |hrefs| => hrefs[k] == Some("#" + id))
  }

  /** The inner loop: remove `active` from every link and add it back to the
      links whose `href` is `#id`. */
  method MarkLinks(hrefs: seq<Option<string>>, id: string, active: array<bool>)
    requires active.Length == |hrefs|
    modifies active
    ensures active[..] == Marked(hrefs, id)
  {
    var k := 0;
    while k < active.Length
      invariant 0 <= k <= active.Length
      invariant forall m :: 0 <= m < k ==> (active[m] <==> hrefs[m] == Some("#" + id))
    {
      active[k] := false;
      if hrefs[k] == Some("#" + id) {
        active[k] := true;
      }
      k := k + 1;
    }
  }

  /** `highlightActiveNavLink` at scroll offset `scrollY`; `active[k]` is
      whether link `k` carries the class `active`. */
  method HighlightActiveNavLink(scrollY: int, sections: seq<Section>, hrefs: seq<Option<string>>, active: array<bool>)
    requires active.Length == |hrefs|
    modifies active
    ensures LastCovering(sections, scrollY + ProbeOffset).None? ==> active[..] == old(active[..])
    ensures LastCovering(sections, scrollY + ProbeOffset).Some? ==>
              active[..] == Marked(hrefs, LastCovering(sections, scrollY + ProbeOffset).value)
  {
    var scrollPosition := scrollY + ProbeOffset;
    var s := 0;
    while s < |sections|
      invariant 0 <= s <= |sections|
      invariant LastCovering(sections[..s], scrollPosition).None? ==> active[..] == old(active[..])
      invariant LastCovering(sections[..s], scrollPosition).Some? ==>
                  active[..] == Marked(hrefs, LastCovering(sections[..s], scrollPosition).value)
    {
      var section := sections[s];
      if scrollPosition >= section.top && scrollPosition < section.top + section.height {
        MarkLinks(hrefs, section.id, active);
      }
      assert sections[..s + 1][..s] == sections[..s];
      s := s + 1;
    }
    assert sections[..s] == sections;
  }
}
