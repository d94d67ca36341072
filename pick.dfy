/** The interactive picker (src/pick.rs): a list with a wrap-around cursor,
    moved by keys and the mouse wheel, and the keys that end the pick.
    Drawing, polling and the tick timer are not modelled; the terminal's
    input is a sequence of events. */
module Pick {
  import opened Common
  import opened Archives

  /** `next` on the selection of a list of `len` items. From no selection it
      selects the first item; from the last item it wraps to the first.
      `len - 1` is computed on `usize`: with a selection in an empty list it
      underflows, which panics when overflow checks are on and wraps to
      `usize::MAX` when they are off; that case is excluded here. */
  function NextIndex(sel: Option<nat>, len: nat): (i: nat)
    requires sel.None? || len > 0
    ensures sel.None? ==> i == 0
    ensures sel.Some? && sel.value < len ==> i == (sel.value + 1) % len
    ensures sel.Some? && sel.value >= len ==> i == 0
  {
    match sel
    case None => 0
    case Some(i) => if i >= len - 1 then 0 else i + 1
  }

  /** `previous`: from no selection it selects the first item (not the
      last); from the first item it wraps to the last. */
  function PrevIndex(sel: Option<nat>, len: nat): (i: nat)
    requires sel.None? || len > 0
    ensures sel.None? ==> i == 0
    ensures sel.Some? && sel.value < len ==> i == (sel.value as int - 1) % len
    ensures sel.Some? && sel.value > 0 ==> i == sel.value - 1
  {
    match sel
    case None => 0
    case Some(i) => if i == 0 then len - 1 else i - 1
  }

  /** In a non-empty list both moves land on an item. */
  lemma MovesInRange(sel: Option<nat>, len: nat)
    requires len > 0 && (sel.Some? ==> sel.value < len)
    ensures NextIndex(sel, len) < len && PrevIndex(sel, len) < len
  {
  }

  /** From a selected item, `previous` undoes `next` and `next` undoes
      `previous`. */
  lemma NextPrevInverse(i: nat, len: nat)
    requires i < len
    ensures PrevIndex(Some(NextIndex(Some(i), len)), len) == i
    ensures NextIndex(Some(PrevIndex(Some(i), len)), len) == i
  {
  }

  /** `n` calls of `next`. */
  function NextN(sel: Option<nat>, len: nat, n: nat): (r: Option<nat>)
    requires len > 0
    ensures n > 0 ==> r.Some? && r.value < len
    decreases n
  {
    if n == 0 then sel else NextN(Some(NextIndex(sel, len)), len, n - 1)
  }

  /** `n` calls of `previous`. */
  function PrevN(sel: Option<nat>, len: nat, n: nat): (r: Option<nat>)
    requires len > 0
    ensures n > 0 && (sel.Some? ==> sel.value < len) ==> r.Some? && r.value < len
    decreases n
  {
    if n == 0 then sel else PrevN(Some(PrevIndex(sel, len)), len, n - 1)
  }

  lemma MulSmall(k: int, len: nat)
    requires len > 0 && -(len as int) < k * len < len
    ensures k == 0
  {
  }

  /** Division with remainder is unique. */
  lemma ModUnique(a: int, q: int, r: int, len: nat)
    requires len > 0 && 0 <= r < len && a == q * len + r
    ensures a % len == r
  {
    var q0, r0 := a / len, a % len;
    assert (q - q0) * len == q * len - q0 * len;
    MulSmall(q - q0, len);
  }

  /** `n` steps forward from item `i` reach item `(i + n) mod len`. */
  lemma {:induction false} NextNMod(i: nat, len: nat, n: nat)
    requires i < len
    ensures NextN(Some(i), len, n) == Some((i + n) % len)
    decreases n
  {
    if n > 0 {
      var j := NextIndex(Some(i), len);
      NextNMod(j, len, n - 1);
      ModShift(i + 1, n - 1, len);
    }
  }

  /** Reducing modulo `len` before adding an offset does not change the
      result modulo `len`. */
  lemma ModShift(a: int, m: int, len: nat)
    requires len > 0
    ensures (a % len + m) % len == (a + m) % len
  {
    var q := a / len;
    assert a == q * len + a % len;
    assert a + m == q * len + (a % len + m);
    ModMultiple(a % len + m, q, len);
  }

  lemma ModMultiple(b: int, q: int, len: nat)
    requires len > 0
    ensures (q * len + b) % len == b % len
  {
    var c, r := b / len, b % len;
    assert b == c * len + r;
    assert q * len + b == (q + c) * len + r;
    ModUnique(q * len + b, q + c, r, len);
  }

  /** `n` steps back from item `i` reach item `(i - n) mod len`. */
  lemma {:induction false} PrevNMod(i: nat, len: nat, n: nat)
    requires i < len
    ensures PrevN(Some(i), len, n) == Some(((i as int - n) % len) as nat)
    decreases n
  {
    if n > 0 {
      var j := PrevIndex(Some(i), len);
      PrevNMod(j, len, n - 1);
      ModShift(i as int - 1, -(n - 1), len);
    }
  }

  /** From no selection, the first step selects item 0 and the rest count
      from there. */
  lemma FromNone(len: nat, n: nat)
    requires len > 0 && n > 0
    ensures NextN(None, len, n) == Some((n - 1) % len)
    ensures PrevN(None, len, n) == Some(((0 - (n - 1)) % len) as nat)
  {
    NextNMod(0, len, n - 1);
    PrevNMod(0, len, n - 1);
  }

  /** `StatefulList`: the items and the selected position. */
  class StatefulList<T> {
    var items: seq<T>
    var selected: Option<nat>

    /** `with_items`: nothing selected. */
    constructor WithItems(items: seq<T>)
      ensures this.items == items && selected == None
    {
      this.items := items;
      selected := None;
    }

    function Selected(): Option<nat>
      reads this
    {
      selected
    }

    method Next()
      requires selected.Some? ==> |items| > 0
      modifies this
      ensures items == old(items)
      ensures selected == Some(NextIndex(old(selected), |items|))
    {
      var i := match selected
        case None => 0
        case Some(i) => if i >= |items| - 1 then 0 else i + 1;
      selected := Some(i);
    }

    method Previous()
      requires selected.Some? ==> |items| > 0
      modifies this
      ensures items == old(items)
      ensures selected == Some(PrevIndex(old(selected), |items|))
    {
      var i := match selected
        case None => 0
        case Some(i) => if i == 0 then |items| - 1 else i - 1;
      selected := Some(i);
    }

    /** PageDown: ten calls of `next`. */
    method PageDown()
      requires |items| > 0
      modifies this
      ensures items == old(items)
      ensures selected == NextN(old(selected), |items|, 10)
      ensures old(selected).Some? && old(selected).value < |items| ==>
        selected == Some((old(selected).value + 10) % |items|)
      ensures old(selected).None? ==> selected == Some(9 % |items|)
    {
      ghost var s0 := selected;
      for k := 0 to 10
        invariant items == old(items)
        invariant NextN(selected, |items|, 10 - k) == NextN(s0, |items|, 10)
      {
        Next();
      }
      if s0.Some? && s0.value < |items| {
        NextNMod(s0.value, |items|, 10);
      }
      if s0.None? {
        FromNone(|items|, 10);
      }
    }

    /** PageUp: ten calls of `previous`. */
    method PageUp()
      requires |items| > 0
      modifies this
      ensures items == old(items)
      ensures selected == PrevN(old(selected), |items|, 10)
      ensures old(selected).Some? && old(selected).value < |items| ==>
        selected == Some(((old(selected).value as int - 10) % |items|) as nat)
      ensures old(selected).None? ==> selected == Some(((0 - 9) % |items|) as nat)
    {
      ghost var s0 := selected;
      for k := 0 to 10
        invariant items == old(items)
        invariant PrevN(selected, |items|, 10 - k) == PrevN(s0, |items|, 10)
      {
        Previous();
      }
      if s0.Some? && s0.value < |items| {
        PrevNMod(s0.value, |items|, 10);
      }
      if s0.None? {
        FromNone(|items|, 10);
      }
    }
  }

  datatype KeyCode = Char(c: char) | Esc | Down | Up | PageDown | PageUp | Enter | OtherKey
  datatype MouseKind = ScrollDown | ScrollUp | OtherMouse
  datatype Event = Key(code: KeyCode) | Mouse(kind: MouseKind) | OtherEvent

  /** How a pick ends: a choice (none for `q` and Esc), or still waiting
      for one when the events run out. */
  datatype Ending<X> = Ended(choice: Option<X>) | Waiting

  /** The key that ends the loop, with its result, if `e` is one. */
  function Ends(sel: Option<nat>, e: Event): (r: Option<Option<nat>>)
    ensures e == Key(Char('q')) || e == Key(Esc) ==> r == Some(None)
    ensures e == Key(Enter) ==> r == Some(sel)
    ensures r.Some? ==> e == Key(Char('q')) || e == Key(Esc) || e == Key(Enter)
  {
    match e
    case Key(Char('q')) => Some(None)
    case Key(Esc) => Some(None)
    case Key(Enter) => Some(sel)
    case _ => None
  }

  /** The selection after an event that does not end the loop. */
  function Apply(sel: Option<nat>, len: nat, e: Event): Option<nat>
    requires len > 0
  {
    match e
    case Key(Down) => Some(NextIndex(sel, len))
    case Key(Up) => Some(PrevIndex(sel, len))
    case Key(PageDown) => NextN(sel, len, 10)
    case Key(PageUp) => PrevN(sel, len, 10)
    case Mouse(ScrollDown) => Some(NextIndex(sel, len))
    case Mouse(ScrollUp) => Some(PrevIndex(sel, len))
    case _ => sel
  }

  /** `run_app` on values: the events in turn until one ends the loop; the
      ending and the selection at that point. */
  function RunSpec(sel: Option<nat>, len: nat, es: seq<Event>): (Ending<nat>, Option<nat>)
    requires len > 0
    decreases |es|
  {
    if es == [] then (Waiting, sel)
    else
      match Ends(sel, es[0])
      case Some(c) => (Ended(c), sel)
      case None => RunSpec(Apply(sel, len, es[0]), len, es[1..])
  }

  /** The selection after a run of events none of which ends the loop. */
  function Moves(sel: Option<nat>, len: nat, es: seq<Event>): Option<nat>
    requires len > 0
    decreases |es|
  {
    if es == [] then sel else Moves(Apply(sel, len, es[0]), len, es[1..])
  }

  /** `q` or Esc ends the pick without a choice, whatever follows. */
  lemma QuitGivesNone(sel: Option<nat>, len: nat, e: Event, rest: seq<Event>)
    requires len > 0 && (e == Key(Char('q')) || e == Key(Esc))
    ensures RunSpec(sel, len, [e] + rest).0 == Ended(None)
  {
  }

  /** Enter after a run of moves returns the selection those moves reached. */
  lemma {:induction false} EnterGivesSelection(sel: Option<nat>, len: nat, es: seq<Event>)
    requires len > 0
    requires forall i :: 0 <= i < |es| ==> Ends(sel, es[i]).None?
    ensures RunSpec(sel, len, es + [Key(Enter)]) == (Ended(Moves(sel, len, es)), Moves(sel, len, es))
    decreases |es|
  {
    if es == [] {
      assert es + [Key(Enter)] == [Key(Enter)];
    } else {
      assert (es + [Key(Enter)])[0] == es[0];
      assert (es + [Key(Enter)])[1..] == es[1..] + [Key(Enter)];
      var s := Apply(sel, len, es[0]);
      forall i | 0 <= i < |es| - 1
        ensures Ends(s, es[1..][i]).None?
      {
        assert es[1..][i] == es[i + 1];
        assert Ends(sel, es[i + 1]).None?;
      }
      EnterGivesSelection(s, len, es[1..]);
    }
  }

  /** A selection on an item stays on an item. */
  predicate OnItem(sel: Option<nat>, len: nat)
  {
    sel.Some? ==> sel.value < len
  }

  lemma ApplyOnItem(sel: Option<nat>, len: nat, e: Event)
    requires len > 0 && OnItem(sel, len)
    ensures OnItem(Apply(sel, len, e), len)
  {
  }

  /** Starting from no selection or an item, any choice the pick makes is
      an item of the list. */
  lemma {:induction false} ChoiceOnItem(sel: Option<nat>, len: nat, es: seq<Event>)
    requires len > 0 && OnItem(sel, len)
    ensures OnItem(RunSpec(sel, len, es).1, len)
    ensures RunSpec(sel, len, es).0.Ended? ==> OnItem(RunSpec(sel, len, es).0.choice, len)
    decreases |es|
  {
    if es != [] && Ends(sel, es[0]).None? {
      ApplyOnItem(sel, len, es[0]);
      ChoiceOnItem(Apply(sel, len, es[0]), len, es[1..]);
    }
  }

  /** `run_app`: read events until `q`, Esc or Enter. */
  method RunApp<T>(list: StatefulList<T>, events: seq<Event>) returns (r: Ending<nat>)
    requires |list.items| > 0
    modifies list
    ensures list.items == old(list.items)
    ensures (r, list.selected) == RunSpec(old(list.selected), |list.items|, events)
  {
    var k := 0;
    while k < |events|
      invariant k <= |events|
      invariant list.items == old(list.items)
      invariant RunSpec(list.selected, |list.items|, events[k..]) == RunSpec(old(list.selected), |list.items|, events)
    {
      assert events[k..][0] == events[k] && events[k..][1..] == events[k + 1..];
      match events[k] {
        case Key(Char('q')) => return Ended(None);
        case Key(Esc) => return Ended(None);
        case Key(Down) => list.Next();
        case Key(Up) => list.Previous();
        case Key(PageDown) => list.PageDown();
        case Key(PageUp) => list.PageUp();
        case Key(Enter) => return Ended(list.Selected());
        case Mouse(ScrollDown) => list.Next();
        case Mouse(ScrollUp) => list.Previous();
        case _ =>
      }
      k := k + 1;
    }
    r := Waiting;
  }

  /** The archive `do_pick` returns for a run of events: item 0 is selected
      first, and a chosen index is mapped to its archive. */
  function PickSpec(inputs: seq<Archive>, events: seq<Event>): (r: Ending<Archive>)
    requires |inputs| > 0
    ensures r.Ended? && r.choice.Some? ==> r.choice.value in inputs
  {
    var e := RunSpec(Some(0), |inputs|, events).0;
    ChoiceOnItem(Some(0), |inputs|, events);
    match e
    case Waiting => Waiting
    case Ended(None) => Ended(None)
    case Ended(Some(i)) => Ended(Some(inputs[i]))
  }

  /** Enter straight away picks the first archive; `q` or Esc straight away
      picks nothing. */
  lemma PickFirstKeys(inputs: seq<Archive>, rest: seq<Event>)
    requires |inputs| > 0
    ensures PickSpec(inputs, [Key(Enter)] + rest) == Ended(Some(inputs[0]))
    ensures PickSpec(inputs, [Key(Esc)] + rest) == Ended(None)
    ensures PickSpec(inputs, [Key(Char('q'))] + rest) == Ended(None)
  {
  }

  /** `do_pick`: a list of the inputs, `next` once, then `run_app`. */
  method DoPick(inputs: seq<Archive>, events: seq<Event>) returns (r: Ending<Archive>)
    requires |inputs| > 0
    ensures r == PickSpec(inputs, events)
  {
    var list := new StatefulList.WithItems(inputs);
    list.Next();
    var e := RunApp(list, events);
    ChoiceOnItem(Some(0), |inputs|, events);
    match e {
      case Waiting => r := Waiting;
      case Ended(None) => r := Ended(None);
      case Ended(Some(i)) => r := Ended(Some(inputs[i]));
    }
  }
}
