/** The product selector: a row of buttons, the details of the selected
    product and an autoplay that advances the selection on every tick until
    the first click stops it. */
module ProductSelector {
  import opened Wrappers
  import opened ProductName
  import opened Catalog

  /** What the details panel shows: image, title, price and the contact
      message (before URL encoding). */
  datatype Details = Details(image: string, title: string, price: string, message: string)

  /** The details panel once it shows product `p`. */
  function DetailsOf(p: Product): Details {
    Details(p.image, p.name, p.price, Message(p))
  }

  /** The index the autoplay moves to from `i`: the next product, wrapping
      from the last one back to the first. */
  function NextIndex(i: nat): (r: nat)
    ensures r < |ProductIds|
    ensures i < |ProductIds| - 1 ==> r == i + 1
    ensures i == |ProductIds| - 1 ==> r == 0
  {
    (i + 1) % |ProductIds|
  }

  /** The index after `n` autoplay ticks from `i`. */
  function Ticks(i: nat, n: nat): nat {
    if n == 0 then i else NextIndex(Ticks(i, n - 1))
  }

  /** `n` ticks from a valid index move it `n` places round the list. */
  lemma {:induction false} TicksCycle(i: nat, n: nat)
    requires i < |ProductIds|
    ensures Ticks(i, n) == (i + n) % |ProductIds|
  {
    if n > 0 {
      TicksCycle(i, n - 1);
      var k := |ProductIds|;
      var q := (i + n - 1) / k;
      assert i + n - 1 == q * k + (i + n - 1) % k;
      if (i + n - 1) % k == k - 1 {
        assert i + n == (q + 1) * k;
      } else {
        assert i + n == q * k + ((i + n - 1) % k + 1);
      }
    }
  }

  /** Four ticks bring the autoplay back to where it started. */
  lemma FourTicks(i: nat)
    requires i < |ProductIds|
    ensures Ticks(i, |ProductIds|) == i
  {
    TicksCycle(i, |ProductIds|);
  }

  /** `active` flags, one per button, set exactly on the first button whose
      product id is `id`. */
  predicate MarksFirst(active: seq<bool>, buttons: seq<string>, id: string) {
    |active| == |buttons| &&
    forall i :: 0 <= i < |active| ==> (active[i] <==> buttons[i] == id && id !in buttons[..i])
  }

  /** At most one button is active. */
  lemma MarksAtMostOne(active: seq<bool>, buttons: seq<string>, id: string)
    requires MarksFirst(active, buttons, id)
    ensures forall i, j :: 0 <= i < j < |active| && active[i] ==> !active[j]
  {
    forall i, j | 0 <= i < j < |active| && active[i] ensures !active[j] {
      assert buttons[..j][i] == buttons[i];
    }
  }

  /** The flags are determined by the buttons and the id. */
  lemma MarksUnique(a: seq<bool>, b: seq<bool>, buttons: seq<string>, id: string)
    requires MarksFirst(a, buttons, id) && MarksFirst(b, buttons, id)
    ensures a == b
  {
  }

  /** When no two buttons carry the same product id, the active button is
      exactly the one whose id is `id`. */
  lemma MarksDistinct(active: seq<bool>, buttons: seq<string>, id: string)
    requires MarksFirst(active, buttons, id)
    requires forall i, j :: 0 <= i < j < |buttons| ==> buttons[i] != buttons[j]
    ensures forall i :: 0 <= i < |active| ==> (active[i] <==> buttons[i] == id)
  {
    forall i, j | 0 <= j < i < |active| ensures buttons[..i][j] != buttons[i] {
      assert buttons[..i][j] == buttons[j];
    }
  }

  /** `document.querySelector` over the buttons: the first one whose product
      id is `id`, or nothing. */
  method FindButton(buttons: seq<string>, id: string) returns (m: Option<nat>)
    ensures m.None? <==> id !in buttons
    ensures m.Some? ==> m.value < |buttons| && buttons[m.value] == id && id !in buttons[..m.value]
  {
    var i := 0;
    while i < |buttons|
      invariant 0 <= i <= |buttons|
      invariant id !in buttons[..i]
    {
      if buttons[i] == id {
        return Some(i);
      }
      assert buttons[..i + 1] == buttons[..i] + [buttons[i]];
      i := i + 1;
    }
    assert buttons[..i] == buttons;
    return None;
  }

  class Selector {
    /** The product id each button carries, in document order. */
    const buttons: seq<string>
    /** The selected position. */
    var index: nat
    /** The buttons' `active` classes. */
    var active: seq<bool>
    /** The autoplay interval is running. */
    var autoplay: bool
    /** The details panel. */
    var details: Details

    ghost predicate Valid()
      reads this
    {
      MarksFirst(active, buttons, IdAt(index)) &&
      (autoplay ==> index < |ProductIds|)
    }

    /** The selector as set up over a page with every element it needs:
        product 0 is selected, and the autoplay starts only when that
        selection found its button. */
    constructor (buttons: seq<string>, initial: Details)
      ensures Valid() && this.buttons == buttons && index == 0
      ensures autoplay <==> ProductIds[0] in buttons
      ensures details == DetailsOf(Products[ProductIds[0]])
    {
      this.buttons := buttons;
      index := 0;
      active := seq(|buttons|, _ => false);
      autoplay := false;
      details := initial;
      new;
      var ok := SelectProduct(0);
      autoplay := ok;
    }

    /** Set-up over a page: nothing happens when the image, the details
        container or the progress bar is missing or there is no button. */
    static method Setup(hasImage: bool, hasDetails: bool, hasProgressBar: bool,
                        buttons: seq<string>, initial: Details) returns (s: Selector?)
      ensures s == null <==> !hasImage || !hasDetails || |buttons| == 0 || !hasProgressBar
      ensures s != null ==> fresh(s) && s.Valid() && s.buttons == buttons && s.index == 0 &&
                            (s.autoplay <==> ProductIds[0] in buttons) &&
                            s.details == DetailsOf(Products[ProductIds[0]])
    {
      if !hasImage || !hasDetails || |buttons| == 0 || !hasProgressBar {
        return null;
      }
      s := new Selector(buttons, initial);
    }

    /** `selectProduct(k)`: records `k`, shows the product at position `k` if
        there is one, clears every button and activates the first button
        carrying that product's id.  `ok` is false when no button carries it,
        where the page stops with an error after the buttons were cleared. */
    method SelectProduct(k: nat) returns (ok: bool)
      requires |active| == |buttons|
      modifies this
      ensures index == k && autoplay == old(autoplay)
      ensures MarksFirst(active, buttons, IdAt(k))
      ensures ok <==> IdAt(k) in buttons
      ensures IdAt(k) in Products ==> details == DetailsOf(Products[IdAt(k)])
      ensures IdAt(k) !in Products ==> details == old(details)
    {
      index := k;
      var id := IdAt(index);
      if id in Products {
        details := DetailsOf(Products[id]);
      }
      var i := 0;
      while i < |active|
        invariant 0 <= i <= |active| == |buttons|
        invariant forall j :: 0 <= j < i ==> !active[j]
        invariant index == k && autoplay == old(autoplay)
        invariant id in Products ==> details == DetailsOf(Products[id])
        invariant id !in Products ==> details == old(details)
      {
        active := active[i := false];
        i := i + 1;
      }
      var m := FindButton(buttons, id);
      if m.Some? {
        active := active[m.value := true];
      }
      ok := m.Some?;
    }

    /** One autoplay tick: the next position is selected. */
    method Tick() returns (ok: bool)
      requires Valid() && autoplay
      modifies this
      ensures Valid() && autoplay
      ensures index == NextIndex(old(index))
      ensures ok <==> IdAt(index) in buttons
      ensures details == DetailsOf(Products[IdAt(index)])
    {
      ok := SelectProduct(NextIndex(index));
    }

    /** A click on button `b` stops the autoplay, then selects position `b`. */
    method Click(b: nat) returns (ok: bool)
      requires Valid() && b < |buttons|
      modifies this
      ensures Valid() && !autoplay && index == b
      ensures ok <==> IdAt(b) in buttons
      ensures IdAt(b) in Products ==> details == DetailsOf(Products[IdAt(b)])
      ensures IdAt(b) !in Products ==> details == old(details)
    {
      autoplay := false;
      ok := SelectProduct(b);
    }
  }

  /** Four autoplay ticks with no click in between bring back the selected
      position, the active button and the details shown. */
  method AutoplayRound(s: Selector)
    requires s.Valid() && s.autoplay
    modifies s
    ensures s.Valid() && s.autoplay
    ensures s.index == old(s.index) && s.active == old(s.active)
    ensures s.details == DetailsOf(Products[IdAt(s.index)])
  {
    ghost var start, i0 := s.active, s.index;
    var ok := s.Tick();
    ghost var i1 := s.index;
    ok := s.Tick();
    ghost var i2 := s.index;
    ok := s.Tick();
    ghost var i3 := s.index;
    ok := s.Tick();
    assert Ticks(i0, 4) == s.index by {
      assert Ticks(i0, 1) == i1 && Ticks(i0, 2) == i2 && Ticks(i0, 3) == i3;
    }
    FourTicks(i0);
    MarksUnique(s.active, start, s.buttons, IdAt(s.index));
  }
}
