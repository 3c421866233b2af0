/** The navigation scroll spy: on every batch of intersection reports, the
    link pointing at the last section reported as intersecting is marked
    active and every other link is cleared. */
module ScrollSpy {
  import opened Wrappers

  /** One intersection report: the observed section's id and whether it
      intersects the viewport. */
  datatype Entry = Entry(id: string, isIntersecting: bool)

  /** The reports that intersect, in their original order. */
  function Visible(entries: seq<Entry>): seq<Entry> {
    if entries == [] then []
    else
      var last := entries[|entries| - 1];
      Visible(entries[..|entries| - 1]) + (if last.isIntersecting then [last] else [])
  }

  /** Filtering keeps exactly the intersecting reports. */
  lemma {:induction false} VisibleKeeps(entries: seq<Entry>)
    ensures |Visible(entries)| <= |entries|
    ensures forall e :: e in Visible(entries) <==> e in entries && e.isIntersecting
  {
    if entries != [] {
      var init := entries[..|entries| - 1];
      VisibleKeeps(init);
      assert entries == init + [entries[|entries| - 1]];
    }
  }

  /** The id of the section to highlight: the last intersecting report's. */
  function ActiveId(entries: seq<Entry>): Option<string> {
    var visible := Visible(entries);
    if |visible| > 0 then Some(visible[|visible| - 1].id) else None
  }

  /** There is no section to highlight exactly when no report intersects;
      otherwise it is the one reported by the last intersecting report. */
  lemma {:induction false} ActiveIdIsLast(entries: seq<Entry>)
    ensures ActiveId(entries).None? <==> forall i :: 0 <= i < |entries| ==> !entries[i].isIntersecting
    ensures forall i :: 0 <= i < |entries| && entries[i].isIntersecting &&
                        (forall j :: i < j < |entries| ==> !entries[j].isIntersecting) ==>
                        ActiveId(entries) == Some(entries[i].id)
  {
    if entries != [] {
      var n := |entries| - 1;
      var init := entries[..n];
      ActiveIdIsLast(init);
      if !entries[n].isIntersecting {
        assert Visible(entries) == Visible(init) + [];
        forall i | 0 <= i < n ensures init[i] == entries[i] {}
      }
    }
  }

  /** `href.substring(1)`: the link's target without its leading `#`. */
  function LinkId(href: string): (r: string)
    ensures href == [] ==> r == []
    ensures href != [] ==> [href[0]] + r == href
  {
    if href == [] then [] else href[1..]
  }

  /** The observer callback over the links' `active` flags: with no
      intersecting report nothing changes; otherwise a link is active exactly
      when its target is the section to highlight. */
  method Highlight(entries: seq<Entry>, hrefs: seq<string>, active: seq<bool>) returns (next: seq<bool>)
    requires |active| == |hrefs|
    ensures |next| == |hrefs|
    ensures ActiveId(entries).None? ==> next == active
    ensures ActiveId(entries).Some? ==>
              forall i :: 0 <= i < |hrefs| ==> (next[i] <==> LinkId(hrefs[i]) == ActiveId(entries).value)
  {
    next := active;
    var visible := Visible(entries);
    if |visible| > 0 {
      var activeId := visible[|visible| - 1].id;
      var i := 0;
      while i < |hrefs|
        invariant 0 <= i <= |hrefs| == |next|
        invariant forall j :: 0 <= j < i ==> (next[j] <==> LinkId(hrefs[j]) == activeId)
      {
        var linkId := LinkId(hrefs[i]);
        if linkId == activeId {
          next := next[i := true];
        } else {
          next := next[i := false];
        }
        i := i + 1;
      }
    }
  }

  /** When every link points at a different section, at most one link is
      active after a batch that has something to highlight. */
  lemma AtMostOneActive(entries: seq<Entry>, hrefs: seq<string>, next: seq<bool>)
    requires |next| == |hrefs| && ActiveId(entries).Some?
    requires forall i :: 0 <= i < |hrefs| ==> (next[i] <==> LinkId(hrefs[i]) == ActiveId(entries).value)
    requires forall i, j :: 0 <= i < j < |hrefs| ==> LinkId(hrefs[i]) != LinkId(hrefs[j])
    ensures forall i, j :: 0 <= i < j < |next| ==> !(next[i] && next[j])
  {
  }
}
