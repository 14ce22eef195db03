/** What a HID report descriptor means, stated on its items as a whole, and proof that the parser finds exactly that.
    The item format is section 6.2.2.2 of the USB Device Class Definition for HID 1.11; the meaning of main and
    global items is sections 6.2.2.4 to 6.2.2.7. */
module HidMeaning {
  import opened Numbers
  import opened HidDescriptor

  // Short items as bytes

  ghost predicate ShortItem(item: Item) {
    && item.kind < 4 && item.tag < 16 && |item.data| in {0, 1, 2, 4}
    && !(item.kind == 3 && item.tag == 15 && |item.data| == 2)
  }

  ghost function SizeCode(size: nat): nat {
    if size == 4 then 3 else size
  }

  ghost function ItemBytes(item: Item): seq<U8>
    requires ShortItem(item)
  {
    [item.tag * 16 + item.kind * 4 + SizeCode(|item.data|)] + item.data
  }

  ghost predicate ShortItems(items: seq<Item>) {
    forall i :: 0 <= i < |items| ==> ShortItem(items[i])
  }

  ghost function Encode(items: seq<Item>): seq<U8>
    requires ShortItems(items)
  {
    if items == [] then [] else ItemBytes(items[0]) + Encode(items[1..])
  }

  ghost predicate Stream(bytes: seq<U8>, items: seq<Item>) {
    ShortItems(items) && Encode(items) == bytes
  }

  lemma NextItemReadsBack(item: Item, rest: seq<U8>)
    requires ShortItem(item)
    ensures NextItem(ItemBytes(item) + rest) == Ok(item)
    ensures (ItemBytes(item) + rest)[1 + |item.data|..] == rest
  {
    var bytes := ItemBytes(item) + rest;
    var prefix := bytes[0];
    assert prefix % 4 == SizeCode(|item.data|) && prefix / 4 % 4 == item.kind && prefix / 16 == item.tag;
    assert bytes[1..1 + |item.data|] == item.data;
  }

  lemma NextItemIsShort(bytes: seq<U8>)
    requires bytes != [] && NextItem(bytes).Ok?
    ensures var item := NextItem(bytes).value;
      ShortItem(item) && bytes == ItemBytes(item) + bytes[1 + |item.data|..]
  {
    var prefix := bytes[0];
    assert prefix == prefix / 16 * 16 + prefix / 4 % 4 * 4 + prefix % 4;
  }

  ghost function ApplyAll(s: State, items: seq<Item>): Parsed<State>
    decreases |items|
  {
    if items == [] then Ok(s)
    else
      var t := Apply(s, items[0]);
      if t.Err? then t else ApplyAll(t.value, items[1..])
  }

  /** On a stream of short items the parser applies the items in order. */
  lemma {:induction false} ParsesStream(bytes: seq<U8>, items: seq<Item>, s: State)
    requires Stream(bytes, items)
    ensures ParseItems(bytes, s) == ApplyAll(s, items)
  {
    if items != [] {
      NextItemReadsBack(items[0], Encode(items[1..]));
      if Apply(s, items[0]).Ok? {
        ParsesStream(Encode(items[1..]), items[1..], Apply(s, items[0]).value);
      }
    }
  }

  /** The parser gets to the end only on a stream of short items. */
  lemma {:induction false} ParsedIsStream(bytes: seq<U8>, s: State) returns (items: seq<Item>)
    requires ParseItems(bytes, s).Ok?
    ensures Stream(bytes, items)
    decreases |bytes|
  {
    if bytes == [] {
      items := [];
    } else {
      NextItemIsShort(bytes);
      var item := NextItem(bytes).value;
      var rest := ParsedIsStream(bytes[1 + |item.data|..], Apply(s, item).value);
      items := [item] + rest;
      assert items[1..] == rest;
    }
  }

  // The meaning of the items before position n

  ghost predicate IsMain(item: Item, tag: nat) {
    item.kind == 0 && item.tag == tag
  }

  ghost predicate IsGlobal(item: Item, tag: nat) {
    item.kind == 1 && item.tag == tag
  }

  /** Pushes not yet popped. */
  ghost function Level(items: seq<Item>, n: nat): int
    requires n <= |items|
  {
    if n == 0 then 0
    else Level(items, n - 1) + (if IsGlobal(items[n - 1], 10) then 1 else if IsGlobal(items[n - 1], 11) then -1 else 0)
  }

  /** Collections not yet ended. */
  ghost function Depth(items: seq<Item>, n: nat): int
    requires n <= |items|
  {
    if n == 0 then 0
    else Depth(items, n - 1) + (if IsMain(items[n - 1], 10) then 1 else if IsMain(items[n - 1], 12) then -1 else 0)
  }

  /** The last push before n that was made at the given level. */
  ghost function PushAt(items: seq<Item>, n: nat, level: int): (k: nat)
    requires n <= |items|
    ensures k <= n && (k == n ==> n == 0)
  {
    if n == 0 then 0
    else if IsGlobal(items[n - 1], 10) && Level(items, n - 1) == level then n - 1
    else PushAt(items, n - 1, level)
  }

  ghost function Setting(g: Globals, item: Item): Globals {
    if IsGlobal(item, 7) then g.(size := Value(item.data))
    else if IsGlobal(item, 8) && Value(item.data) <= 255 then g.(id := Value(item.data))
    else if IsGlobal(item, 9) then g.(count := Value(item.data))
    else g
  }

  /** The global state: the last values given, except that a pop brings back what held at the push it answers. */
  ghost function GlobalsAt(items: seq<Item>, n: nat): Globals
    requires n <= |items|
    decreases n
  {
    if n == 0 then Globals(0, 0, 0)
    else
      var item := items[n - 1];
      if IsGlobal(item, 11) then GlobalsAt(items, PushAt(items, n - 1, Level(items, n)))
      else Setting(GlobalsAt(items, n - 1), item)
  }

  ghost predicate UsesIds(items: seq<Item>, n: nat)
    requires n <= |items|
  {
    exists k :: 0 <= k < n && IsGlobal(items[k], 8)
  }

  /** A main item of this tag stands under this report identifier. */
  ghost predicate Declares(items: seq<Item>, k: nat, tag: nat, id: U8)
    requires k < |items|
  {
    IsMain(items[k], tag) && GlobalsAt(items, k).id == id
  }

  ghost predicate Declared(items: seq<Item>, n: nat, tag: nat, id: U8)
    requires n <= |items|
  {
    exists k: nat :: k < n && Declares(items, k, tag, id)
  }

  /** The bits all those items add up to: report size times report count each. */
  ghost function Bits(items: seq<Item>, n: nat, tag: nat, id: U8): nat
    requires n <= |items|
  {
    if n == 0 then 0
    else
      var g := GlobalsAt(items, n - 1);
      Bits(items, n - 1, tag, id) + (if Declares(items, n - 1, tag, id) then g.size * g.count else 0)
  }

  // The parser state means the same

  ghost predicate SameTotals(totals: Totals, items: seq<Item>, n: nat, tag: nat)
    requires n <= |items|
  {
    forall id: U8 ::
      && (id in totals <==> Declared(items, n, tag, id))
      && (id in totals ==> totals[id] == Bits(items, n, tag, id))
      && (id !in totals ==> Bits(items, n, tag, id) == 0)
  }

  ghost predicate SameStack(stack: seq<Globals>, items: seq<Item>, n: nat)
    requires n <= |items|
  {
    && |stack| == Level(items, n)
    && forall i :: 0 <= i < |stack| ==> stack[i] == GlobalsAt(items, PushAt(items, n, i))
  }

  ghost predicate Means(s: State, items: seq<Item>, n: nat)
    requires n <= |items|
  {
    && s.globals == GlobalsAt(items, n)
    && SameStack(s.stack, items, n)
    && s.depth == Depth(items, n)
    && (s.usesIds <==> UsesIds(items, n))
    && SameTotals(s.input, items, n, 8)
    && SameTotals(s.output, items, n, 9)
    && SameTotals(s.feature, items, n, 11)
  }

  /** What item k needs in order to be applied. */
  ghost predicate Applicable(items: seq<Item>, k: nat)
    requires k < |items|
  {
    && (IsGlobal(items[k], 8) ==> 1 <= Value(items[k].data) <= 255)
    && (IsGlobal(items[k], 11) ==> Level(items, k) > 0)
    && (IsMain(items[k], 12) ==> Depth(items, k) > 0)
    && (forall tag :: tag in {8, 9, 11} && IsMain(items[k], tag) ==>
          Bits(items, k + 1, tag, GlobalsAt(items, k).id) <= U64_MAX)
  }

  ghost function Reached(items: seq<Item>, n: nat): Parsed<State>
    requires n <= |items|
  {
    if n == 0 then Ok(START)
    else
      var s := Reached(items, n - 1);
      if s.Err? then s else Apply(s.value, items[n - 1])
  }

  lemma {:induction false} ReachedThenRest(items: seq<Item>, n: nat)
    requires n <= |items|
    ensures ApplyAll(START, items) ==
      if Reached(items, n).Err? then Reached(items, n) else ApplyAll(Reached(items, n).value, items[n..])
  {
    if n == 0 {
      assert items[0..] == items;
    } else {
      ReachedThenRest(items, n - 1);
      assert items[n - 1..][1..] == items[n..];
    }
  }

  lemma TotalsUnchanged(totals: Totals, items: seq<Item>, n: nat, tag: nat)
    requires n < |items| && SameTotals(totals, items, n, tag) && !IsMain(items[n], tag)
    ensures SameTotals(totals, items, n + 1, tag)
  {
    forall id: U8
      ensures Declared(items, n + 1, tag, id) <==> Declared(items, n, tag, id)
    {
      if Declared(items, n + 1, tag, id) {
        var k: nat :| k < n + 1 && Declares(items, k, tag, id);
        assert k < n;
      }
    }
  }

  lemma TotalsAdded(totals: Totals, items: seq<Item>, n: nat, tag: nat, g: Globals)
    requires n < |items| && SameTotals(totals, items, n, tag) && IsMain(items[n], tag) && g == GlobalsAt(items, n)
    ensures AddTo(totals, g.id, g.size * g.count).Ok? <==> Bits(items, n + 1, tag, g.id) <= U64_MAX
    ensures AddTo(totals, g.id, g.size * g.count).Ok? ==>
      SameTotals(AddTo(totals, g.id, g.size * g.count).value, items, n + 1, tag)
  {
    var added := g.size * g.count;
    assert added >= 0;
    assert Bits(items, n + 1, tag, g.id) == Bits(items, n, tag, g.id) + added;
    forall id: U8
      ensures Declared(items, n + 1, tag, id) <==> Declared(items, n, tag, id) || id == g.id
    {
      if Declared(items, n + 1, tag, id) {
        var k: nat :| k < n + 1 && Declares(items, k, tag, id);
        assert k == n ==> id == g.id;
      }
      assert id == g.id ==> Declares(items, n, tag, id);
    }
  }

  lemma StackUnchanged(stack: seq<Globals>, items: seq<Item>, n: nat)
    requires n < |items| && SameStack(stack, items, n) && !IsGlobal(items[n], 10) && !IsGlobal(items[n], 11)
    ensures SameStack(stack, items, n + 1)
  {
  }

  lemma StackPushed(stack: seq<Globals>, items: seq<Item>, n: nat)
    requires n < |items| && SameStack(stack, items, n) && IsGlobal(items[n], 10)
    ensures SameStack(stack + [GlobalsAt(items, n)], items, n + 1)
  {
  }

  lemma StackPopped(stack: seq<Globals>, items: seq<Item>, n: nat)
    requires n < |items| && SameStack(stack, items, n) && IsGlobal(items[n], 11) && |stack| > 0
    ensures SameStack(stack[..|stack| - 1], items, n + 1)
    ensures stack[|stack| - 1] == GlobalsAt(items, n + 1)
  {
  }

  lemma IdsStep(items: seq<Item>, n: nat)
    requires n < |items|
    ensures UsesIds(items, n + 1) <==> UsesIds(items, n) || IsGlobal(items[n], 8)
  {
    if UsesIds(items, n + 1) {
      var k :| 0 <= k < n + 1 && IsGlobal(items[k], 8);
      assert k == n || k < n;
    }
    if IsGlobal(items[n], 8) {
      assert IsGlobal(items[n], 8) && 0 <= n < n + 1;
    }
  }

  lemma DepthBound(items: seq<Item>, n: nat)
    requires n <= |items|
    ensures Depth(items, n) <= n
  {
  }

  lemma MainAddsBits(s: State, items: seq<Item>, n: nat, totals: Totals, tag: nat)
    requires n < |items| && Means(s, items, n) && tag in {8, 9, 11} && IsMain(items[n], tag)
    requires SameTotals(totals, items, n, tag)
    ensures AddTo(totals, s.globals.id, s.globals.size * s.globals.count).Ok? <==> Applicable(items, n)
  {
    TotalsAdded(totals, items, n, tag, s.globals);
  }

  /** The parser applies an item exactly when the item is applicable where it stands. */
  lemma AppliesIffApplicable(s: State, items: seq<Item>, n: nat)
    requires n < |items| <= MAX_DESCRIPTOR_SIZE && Means(s, items, n)
    ensures Apply(s, items[n]).Ok? <==> Applicable(items, n)
  {
    var item := items[n];
    DepthBound(items, n);
    if IsMain(item, 8) {
      MainAddsBits(s, items, n, s.input, 8);
    } else if IsMain(item, 9) {
      MainAddsBits(s, items, n, s.output, 9);
    } else if IsMain(item, 11) {
      MainAddsBits(s, items, n, s.feature, 11);
    }
  }

  lemma AppliedStack(s: State, item: Item, t: State)
    requires Apply(s, item) == Ok(t)
    ensures if IsGlobal(item, 10) then t.stack == s.stack + [s.globals] && t.globals == s.globals
      else if IsGlobal(item, 11) then s.stack != [] && s.stack == t.stack + [t.globals]
      else t.stack == s.stack && t.globals == Setting(s.globals, item)
  {
  }

  lemma StackStep(s: State, items: seq<Item>, n: nat, t: State)
    requires n < |items| && SameStack(s.stack, items, n) && s.globals == GlobalsAt(items, n)
    requires Apply(s, items[n]) == Ok(t)
    ensures SameStack(t.stack, items, n + 1) && t.globals == GlobalsAt(items, n + 1)
  {
    AppliedStack(s, items[n], t);
    if IsGlobal(items[n], 10) {
      StackPushed(s.stack, items, n);
    } else if IsGlobal(items[n], 11) {
      StackPopped(s.stack, items, n);
    } else {
      StackUnchanged(s.stack, items, n);
    }
  }

  ghost function Adding(totals: Totals, g: Globals, item: Item, tag: nat): Parsed<Totals> {
    if IsMain(item, tag) then AddTo(totals, g.id, g.size * g.count) else Ok(totals)
  }

  lemma AppliedTotals(s: State, item: Item, t: State)
    requires Apply(s, item) == Ok(t)
    ensures Adding(s.input, s.globals, item, 8) == Ok(t.input)
    ensures Adding(s.output, s.globals, item, 9) == Ok(t.output)
    ensures Adding(s.feature, s.globals, item, 11) == Ok(t.feature)
  {
  }

  lemma TotalsStep(totals: Totals, items: seq<Item>, n: nat, tag: nat, g: Globals, next: Totals)
    requires n < |items| && SameTotals(totals, items, n, tag) && g == GlobalsAt(items, n)
    requires Adding(totals, g, items[n], tag) == Ok(next)
    ensures SameTotals(next, items, n + 1, tag)
  {
    if IsMain(items[n], tag) {
      TotalsAdded(totals, items, n, tag, g);
    } else {
      TotalsUnchanged(totals, items, n, tag);
    }
  }

  lemma MeansStep(s: State, items: seq<Item>, n: nat, t: State)
    requires n < |items| && Means(s, items, n) && Apply(s, items[n]) == Ok(t) && Applicable(items, n)
    ensures Means(t, items, n + 1)
  {
    assert SameStack(t.stack, items, n + 1) && t.globals == GlobalsAt(items, n + 1) by { StackStep(s, items, n, t); }
    assert SameTotals(t.input, items, n + 1, 8) && SameTotals(t.output, items, n + 1, 9)
        && SameTotals(t.feature, items, n + 1, 11) by {
      AppliedTotals(s, items[n], t);
      TotalsStep(s.input, items, n, 8, s.globals, t.input);
      TotalsStep(s.output, items, n, 9, s.globals, t.output);
      TotalsStep(s.feature, items, n, 11, s.globals, t.feature);
    }
    assert t.usesIds <==> UsesIds(items, n + 1) by { IdsStep(items, n); }
  }

  ghost predicate AllApplicable(items: seq<Item>, n: nat)
    requires n <= |items|
  {
    forall k :: 0 <= k < n ==> Applicable(items, k)
  }

  lemma ReachesNext(s: State, items: seq<Item>, n: nat, next: Parsed<State>)
    requires n < |items| <= MAX_DESCRIPTOR_SIZE && Means(s, items, n) && next == Apply(s, items[n])
    ensures next.Ok? <==> Applicable(items, n)
    ensures next.Ok? ==> Means(next.value, items, n + 1)
  {
    AppliesIffApplicable(s, items, n);
    if next.Ok? {
      MeansStep(s, items, n, next.value);
    }
  }

  /** The parser gets as far as the items are applicable, and its state there is what they mean. */
  lemma {:induction false} ReachedMeans(items: seq<Item>, n: nat)
    requires n <= |items| <= MAX_DESCRIPTOR_SIZE
    ensures Reached(items, n).Ok? <==> AllApplicable(items, n)
    ensures Reached(items, n).Ok? ==> Means(Reached(items, n).value, items, n)
  {
    if n > 0 {
      ReachedMeans(items, n - 1);
      if Reached(items, n - 1).Ok? {
        ReachesNext(Reached(items, n - 1).value, items, n - 1, Apply(Reached(items, n - 1).value, items[n - 1]));
      }
    }
  }

  // The meaning of a whole descriptor

  ghost predicate Balanced(items: seq<Item>) {
    && Level(items, |items|) == 0 && Depth(items, |items|) == 0
    && forall k :: 0 <= k <= |items| ==> Level(items, k) >= 0 && Depth(items, k) >= 0
  }

  ghost predicate IdsInRange(items: seq<Item>) {
    forall k :: 0 <= k < |items| && IsGlobal(items[k], 8) ==> 1 <= Value(items[k].data) <= 255
  }

  ghost function ReportLength(items: seq<Item>, tag: nat, id: U8): nat {
    (Bits(items, |items|, tag, id) + 7) / 8 + (if UsesIds(items, |items|) then 1 else 0)
  }

  ghost predicate Fits(items: seq<Item>, tag: nat, id: U8) {
    && (UsesIds(items, |items|) ==> id != 0)
    && 1 <= ReportLength(items, tag, id) <= 80
  }

  ghost predicate AllFit(items: seq<Item>, tag: nat) {
    forall id: U8 :: Declared(items, |items|, tag, id) ==> Fits(items, tag, id)
  }

  /** A descriptor: a stream of short items whose collections and pushes balance, with report identifiers from
      1 to 255 on every report or on none, where every report declared has a length from 1 to 80 bytes and
      some is an input report. */
  ghost predicate Described(bytes: seq<U8>, items: seq<Item>) {
    && 1 <= |bytes| <= 4096
    && Stream(bytes, items)
    && Balanced(items)
    && IdsInRange(items)
    && AllFit(items, 8) && AllFit(items, 9) && AllFit(items, 11)
    && exists id: U8 :: Declared(items, |items|, 8, id)
  }

  /** These are the lengths of exactly the reports declared. */
  ghost predicate LengthsOf(lengths: Lengths, items: seq<Item>, tag: nat) {
    forall id: U8 ::
      && (id in lengths <==> Declared(items, |items|, tag, id))
      && (id in lengths ==> lengths[id] == ReportLength(items, tag, id))
  }

  lemma {:induction false} StreamIsLong(bytes: seq<U8>, items: seq<Item>)
    requires Stream(bytes, items)
    ensures |items| <= |bytes|
    decreases |items|
  {
    if items != [] {
      StreamIsLong(Encode(items[1..]), items[1..]);
    }
  }

  lemma {:induction false} BitsGrow(items: seq<Item>, k: nat, n: nat, tag: nat, id: U8)
    requires k <= n <= |items|
    ensures Bits(items, k, tag, id) <= Bits(items, n, tag, id)
  {
    if k < n {
      BitsGrow(items, k, n - 1, tag, id);
      BitsAdd(items, n, tag, id);
      hide Bits;
    }
  }

  lemma BitsAdd(items: seq<Item>, n: nat, tag: nat, id: U8)
    requires 0 < n <= |items|
    ensures Bits(items, n - 1, tag, id) <= Bits(items, n, tag, id)
  {
    hide GlobalsAt, Declares;
    var g := GlobalsAt(items, n - 1);
    assert g.size * g.count >= 0;
  }

  lemma {:induction false} NeverBelow(items: seq<Item>, n: nat)
    requires n <= |items| && AllApplicable(items, n)
    ensures forall k :: 0 <= k <= n ==> Level(items, k) >= 0 && Depth(items, k) >= 0
  {
    if n > 0 {
      NeverBelow(items, n - 1);
      assert Applicable(items, n - 1);
    }
  }

  lemma FittingAddsUp(items: seq<Item>, k: nat, tag: nat)
    requires k < |items| && IsMain(items[k], tag) && AllFit(items, tag)
    ensures Bits(items, k + 1, tag, GlobalsAt(items, k).id) <= U64_MAX
  {
    var id := GlobalsAt(items, k).id;
    assert Declares(items, k, tag, id);
    assert Declared(items, |items|, tag, id);
    assert Fits(items, tag, id);
    BitsGrow(items, k + 1, |items|, tag, id);
  }

  lemma DescribedApplies(bytes: seq<U8>, items: seq<Item>, k: nat)
    requires Described(bytes, items) && k < |items|
    ensures Applicable(items, k)
  {
    assert Level(items, k + 1) >= 0 && Depth(items, k + 1) >= 0;
    if IsMain(items[k], 8) {
      FittingAddsUp(items, k, 8);
    } else if IsMain(items[k], 9) {
      FittingAddsUp(items, k, 9);
    } else if IsMain(items[k], 11) {
      FittingAddsUp(items, k, 11);
    }
  }

  lemma {:induction false} LengthsExist(totals: Totals, usesIds: bool, next: nat)
    requires next <= 256
    ensures LengthsFrom(totals, usesIds, next).Ok? <==>
      forall id :: id in totals && id >= next ==> 1 <= ByteLength(totals[id], usesIds) <= MAX_REPORT_SIZE
    decreases 256 - next
  {
    if next < 256 {
      LengthsExist(totals, usesIds, next + 1);
    }
  }

  /** For one kind of report, the final checks pass exactly when every report declared fits. */
  lemma MeasuredIff(totals: Totals, items: seq<Item>, tag: nat, usesIds: bool)
    requires SameTotals(totals, items, |items|, tag) && usesIds == UsesIds(items, |items|)
    ensures !(usesIds && 0 in totals) && LengthsFrom(totals, usesIds, 0).Ok? <==> AllFit(items, tag)
    ensures LengthsFrom(totals, usesIds, 0).Ok? ==> LengthsOf(LengthsFrom(totals, usesIds, 0).value, items, tag)
  {
    LengthsExist(totals, usesIds, 0);
    LengthsAfter(totals, usesIds, 0);
  }

  lemma AppliedIdsInRange(items: seq<Item>)
    requires AllApplicable(items, |items|)
    ensures IdsInRange(items)
  {
    forall k | 0 <= k < |items| && IsGlobal(items[k], 8)
      ensures 1 <= Value(items[k].data) <= 255
    {
      assert Applicable(items, k);
    }
  }

  lemma SomeInputIff(totals: Totals, items: seq<Item>, usesIds: bool)
    requires SameTotals(totals, items, |items|, 8) && LengthsFrom(totals, usesIds, 0).Ok?
    ensures LengthsFrom(totals, usesIds, 0).value != map[] <==> exists id: U8 :: Declared(items, |items|, 8, id)
  {
    LengthsAfter(totals, usesIds, 0);
    var lengths := LengthsFrom(totals, usesIds, 0).value;
    if lengths != map[] {
      var id :| id in lengths;
      assert Declared(items, |items|, 8, id);
    }
  }

  lemma ConcludesIff(s: State, bytes: seq<U8>, items: seq<Item>)
    requires Means(s, items, |items|) && AllApplicable(items, |items|)
    requires Stream(bytes, items) && 1 <= |bytes| <= MAX_DESCRIPTOR_SIZE
    ensures Conclude(s).Ok? <==> Described(bytes, items)
  {
    assert Balanced(items) <==> s.depth == 0 && s.stack == [] by { NeverBelow(items, |items|); }
    assert IdsInRange(items) by { AppliedIdsInRange(items); }
    MeasuredIff(s.input, items, 8, s.usesIds);
    MeasuredIff(s.output, items, 9, s.usesIds);
    MeasuredIff(s.feature, items, 11, s.usesIds);
    if LengthsFrom(s.input, s.usesIds, 0).Ok? {
      SomeInputIff(s.input, items, s.usesIds);
    }
  }

  /** On a stream of short items the parser succeeds exactly when they describe reports, and it finds their lengths. */
  lemma ParsesDescription(bytes: seq<U8>, items: seq<Item>)
    requires Stream(bytes, items) && 1 <= |bytes| <= MAX_DESCRIPTOR_SIZE
    ensures Parse(bytes).Ok? <==> Described(bytes, items)
    ensures Parse(bytes).Ok? ==>
      var layout := Parse(bytes).value;
      && (layout.usesReportIds <==> UsesIds(items, |items|))
      && LengthsOf(layout.reports.input, items, 8)
      && LengthsOf(layout.reports.output, items, 9)
      && LengthsOf(layout.reports.feature, items, 11)
  {
    var n := |items|;
    StreamIsLong(bytes, items);
    ParsesStream(bytes, items, START);
    ReachedThenRest(items, n);
    assert ParseItems(bytes, START) == Reached(items, n);
    ReachedMeans(items, n);
    if Reached(items, n).Ok? {
      var s := Reached(items, n).value;
      ConcludesIff(s, bytes, items);
      MeasuredIff(s.input, items, 8, s.usesIds);
      MeasuredIff(s.output, items, 9, s.usesIds);
      MeasuredIff(s.feature, items, 11, s.usesIds);
    } else if Described(bytes, items) {
      forall k | 0 <= k < n ensures Applicable(items, k) {
        DescribedApplies(bytes, items, k);
      }
      assert false;
    }
  }

  /** The parser succeeds exactly on descriptors. */
  lemma ParsesExactlyDescriptors(bytes: seq<U8>)
    ensures Parse(bytes).Ok? <==> exists items :: Described(bytes, items)
  {
    if Parse(bytes).Ok? {
      var items := ParsedIsStream(bytes, START);
      ParsesDescription(bytes, items);
    }
    if items :| Described(bytes, items) {
      ParsesDescription(bytes, items);
    }
  }

  lemma {:induction false} LastPushAtLevel(items: seq<Item>, push: nat, n: nat)
    requires push < n <= |items| && IsGlobal(items[push], 10)
    requires forall k :: push < k <= n ==> Level(items, k) > Level(items, push)
    ensures PushAt(items, n, Level(items, push)) == push
  {
    if n > push + 1 {
      LastPushAtLevel(items, push, n - 1);
    }
  }

  /** A push and the pop that answers it enclose a balanced stretch, and after the pop the globals are
      those before the push. */
  lemma PopRestoresGlobals(items: seq<Item>, push: nat, pop: nat)
    requires push < pop < |items| <= MAX_DESCRIPTOR_SIZE
    requires IsGlobal(items[push], 10) && IsGlobal(items[pop], 11)
    requires Level(items, pop) == Level(items, push + 1)
    requires forall k :: push < k <= pop ==> Level(items, k) > Level(items, push)
    requires Reached(items, pop + 1).Ok?
    ensures Reached(items, push).Ok? && Reached(items, pop + 1).value.globals == Reached(items, push).value.globals
  {
    ReachedMeans(items, push);
    ReachedMeans(items, pop + 1);
    LastPushAtLevel(items, push, pop);
  }

  // Why a descriptor is refused

  /** The bytes do not begin with a short item: they begin with a long one, or end within it. */
  ghost predicate Unreadable(bytes: seq<U8>, e: DescriptorError) {
    && bytes != []
    && if bytes[0] == 254 then e == LongItemUnsupported
       else e == TruncatedItem && |bytes| <= (if bytes[0] % 4 == 3 then 4 else bytes[0] % 4)
  }

  /** What is wrong with an item that is not applicable. */
  ghost function ErrorAt(items: seq<Item>, k: nat): DescriptorError
    requires k < |items|
  {
    if IsGlobal(items[k], 8) then InvalidReportId
    else if IsGlobal(items[k], 11) then GlobalStackUnderflow
    else if IsMain(items[k], 12) then CollectionUnderflow else ArithmeticOverflow
  }

  ghost predicate HasLength(items: seq<Item>, tag: nat, id: U8) {
    1 <= ReportLength(items, tag, id) <= 80
  }

  /** The report declared with the lowest identifier of all that have no length from 1 to 80 bytes. */
  ghost predicate FirstWithoutLength(items: seq<Item>, tag: nat, id: U8) {
    && Declared(items, |items|, tag, id) && !HasLength(items, tag, id)
    && forall lower: U8 :: lower < id && Declared(items, |items|, tag, lower) ==> HasLength(items, tag, lower)
  }

  ghost predicate LengthsRefused(items: seq<Item>, tag: nat, e: DescriptorError) {
    exists id: U8 :: FirstWithoutLength(items, tag, id) &&
      e == if Bits(items, |items|, tag, id) > U64_MAX - 7 then ArithmeticOverflow else InvalidReportSize
  }

  ghost predicate AllHaveLengths(items: seq<Item>, tag: nat) {
    forall id: U8 :: Declared(items, |items|, tag, id) ==> HasLength(items, tag, id)
  }

  /** What is wrong when all items could be applied: a collection or a push is left open, a report has no identifier
      although others do, a report has no valid length, looking at input reports first and at feature reports last, or
      there is no input report. */
  ghost predicate RefusedAtEnd(items: seq<Item>, e: DescriptorError) {
    var n := |items|;
    if Depth(items, n) != 0 then e == UnclosedCollection
    else if Level(items, n) != 0 then e == UnclosedGlobalStack
    else if UsesIds(items, n) && (Declared(items, n, 8, 0) || Declared(items, n, 9, 0) || Declared(items, n, 11, 0))
    then e == MixedReportIds
    else if !AllHaveLengths(items, 8) then LengthsRefused(items, 8, e)
    else if !AllHaveLengths(items, 9) then LengthsRefused(items, 9, e)
    else if !AllHaveLengths(items, 11) then LengthsRefused(items, 11, e)
    else e == MissingInputReport && forall id: U8 :: !Declared(items, n, 8, id)
  }

  lemma UnreadableIff(bytes: seq<U8>)
    requires bytes != []
    ensures NextItem(bytes).Err? ==> Unreadable(bytes, NextItem(bytes).error)
  {
  }

  lemma OneItemMore(s: State, item: Item, others: seq<Item>)
    requires ShortItem(item) && ShortItems(others)
    ensures ShortItems([item] + others) && Encode([item] + others) == ItemBytes(item) + Encode(others)
    ensures ApplyAll(s, [item] + others) ==
      if Apply(s, item).Err? then Apply(s, item) else ApplyAll(Apply(s, item).value, others)
  {
    assert ([item] + others)[1..] == others;
  }

  /** Where reading the items stops, and with what. */
  ghost predicate StopsAt(bytes: seq<U8>, s: State, items: seq<Item>, rest: seq<U8>) {
    && ShortItems(items) && Encode(items) + rest == bytes
    && match ParseItems(bytes, s)
       case Ok(_) => rest == [] && ApplyAll(s, items) == ParseItems(bytes, s)
       case Err(e) =>
         if ApplyAll(s, items).Ok? then Unreadable(rest, e)
         else items != [] && ApplyAll(s, items[..|items| - 1]).Ok? && ApplyAll(s, items) == ParseItems(bytes, s)
  }

  lemma ParsesOneMore(bytes: seq<U8>, s: State, item: Item)
    requires bytes != [] && NextItem(bytes) == Ok(item) && Apply(s, item).Ok?
    ensures ParseItems(bytes, s) == ParseItems(bytes[1 + |item.data|..], Apply(s, item).value)
  {
  }

  lemma StopsLater(bytes: seq<U8>, s: State, item: Item, later: seq<U8>, next: State, others: seq<Item>, rest: seq<U8>)
    requires ShortItem(item) && bytes == ItemBytes(item) + later && Apply(s, item) == Ok(next)
    requires ParseItems(bytes, s) == ParseItems(later, next) && StopsAt(later, next, others, rest)
    ensures StopsAt(bytes, s, [item] + others, rest)
  {
    hide Apply, ParseItems, ApplyAll, Encode, Unreadable, ItemBytes, ShortItem;
    OneItemMore(s, item, others);
    assert ItemBytes(item) + Encode(others) + rest == ItemBytes(item) + (Encode(others) + rest);
    if others != [] {
      var init := others[..|others| - 1];
      assert ([item] + others)[..|[item] + others| - 1] == [item] + init;
      OneItemMore(s, item, init);
    }
  }

  lemma {:induction false} ReadingStops(bytes: seq<U8>, s: State) returns (items: seq<Item>, rest: seq<U8>)
    ensures StopsAt(bytes, s, items, rest)
    decreases |bytes|
  {
    hide Apply;
    items, rest := [], bytes;
    if bytes != [] && NextItem(bytes).Err? {
      UnreadableIff(bytes);
    } else if bytes != [] {
      NextItemIsShort(bytes);
      var item := NextItem(bytes).value;
      if Apply(s, item).Err? {
        items, rest := [item], bytes[1 + |item.data|..];
        OneItemMore(s, item, []);
        assert [item] + [] == [item] && items[..0] == [];
      } else {
        hide StopsAt;
        var others: seq<Item>;
        others, rest := ReadingStops(bytes[1 + |item.data|..], Apply(s, item).value);
        items := [item] + others;
        ParsesOneMore(bytes, s, item);
        StopsLater(bytes, s, item, bytes[1 + |item.data|..], Apply(s, item).value, others, rest);
      }
    }
  }

  lemma NotApplicableMeans(s: State, items: seq<Item>, n: nat)
    requires n < |items| <= MAX_DESCRIPTOR_SIZE && Means(s, items, n) && !Applicable(items, n)
    ensures Apply(s, items[n]) == Err(ErrorAt(items, n))
  {
    AppliesIffApplicable(s, items, n);
    DepthBound(items, n);
  }

  lemma {:induction false} LengthsFail(totals: Totals, usesIds: bool, next: nat) returns (id: U8)
    requires next <= 256 && LengthsFrom(totals, usesIds, next).Err?
    ensures id >= next && id in totals && !(1 <= ByteLength(totals[id], usesIds) <= 80)
    ensures forall lower :: next <= lower < id && lower in totals ==> 1 <= ByteLength(totals[lower], usesIds) <= 80
    ensures LengthsFrom(totals, usesIds, next).error ==
      if totals[id] > U64_MAX - 7 then ArithmeticOverflow else InvalidReportSize
    decreases 256 - next
  {
    if next in totals && !(1 <= ByteLength(totals[next], usesIds) <= 80) {
      id := next;
    } else {
      id := LengthsFail(totals, usesIds, next + 1);
    }
  }

  lemma LengthsMean(totals: Totals, items: seq<Item>, tag: nat, usesIds: bool)
    requires SameTotals(totals, items, |items|, tag) && usesIds == UsesIds(items, |items|)
    ensures LengthsFrom(totals, usesIds, 0).Ok? <==> AllHaveLengths(items, tag)
    ensures LengthsFrom(totals, usesIds, 0).Err? ==>
      LengthsRefused(items, tag, LengthsFrom(totals, usesIds, 0).error)
  {
    LengthsExist(totals, usesIds, 0);
    if LengthsFrom(totals, usesIds, 0).Err? {
      var id := LengthsFail(totals, usesIds, 0);
      assert FirstWithoutLength(items, tag, id);
    }
  }

  lemma RefusesAtEnd(s: State, items: seq<Item>)
    requires Means(s, items, |items|) && Conclude(s).Err?
    ensures RefusedAtEnd(items, Conclude(s).error)
  {
    LengthsMean(s.input, items, 8, s.usesIds);
    LengthsMean(s.output, items, 9, s.usesIds);
    LengthsMean(s.feature, items, 11, s.usesIds);
    hide AllHaveLengths, LengthsRefused, LengthsFrom;
    if LengthsFrom(s.input, s.usesIds, 0).Ok? {
      SomeInputIff(s.input, items, s.usesIds);
    }
  }

  /** A descriptor is refused for its size, or for the first thing wrong with it in reading order: bytes that are no
      short item, an item that is not applicable where it stands, or what the items as a whole leave undone. */
  lemma RefusedBecause(bytes: seq<U8>) returns (items: seq<Item>, rest: seq<U8>)
    requires Parse(bytes).Err?
    ensures ShortItems(items) && Encode(items) + rest == bytes
    ensures var e := Parse(bytes).error;
      if |bytes| == 0 || |bytes| > 4096 then e == InvalidDescriptorSize
      else if !AllApplicable(items, |items|)
      then AllApplicable(items, |items| - 1) && e == ErrorAt(items, |items| - 1)
      else if rest != [] then Unreadable(rest, e)
      else RefusedAtEnd(items, e)
  {
    items, rest := ReadingStops(bytes, START);
    if 1 <= |bytes| <= 4096 {
      StreamIsLong(Encode(items), items);
      StoppedBecause(bytes, items, rest);
    }
  }

  lemma StoppedBecause(bytes: seq<U8>, items: seq<Item>, rest: seq<U8>)
    requires 1 <= |bytes| <= 4096 && |items| <= 4096 && StopsAt(bytes, START, items, rest) && Parse(bytes).Err?
    ensures var e := Parse(bytes).error;
      if !AllApplicable(items, |items|)
      then AllApplicable(items, |items| - 1) && e == ErrorAt(items, |items| - 1)
      else if rest != [] then Unreadable(rest, e)
      else RefusedAtEnd(items, e)
  {
    hide Means, Applicable, ErrorAt, RefusedAtEnd, Unreadable, Encode, Conclude, ParseItems, ApplyAll;
    ReachedAll(items, |items|);
    ReachedMeans(items, |items|);
    if ParseItems(bytes, START).Ok? {
      RefusesAtEnd(Reached(items, |items|).value, items);
    } else if Reached(items, |items|).Err? {
      var n: nat := |items| - 1;
      ReachedAll(items[..n], n);
      ReachedPrefix(items, n);
      ReachedMeans(items, n);
      NotApplicableMeans(Reached(items, n).value, items, n);
    } else {
      assert rest != [] by { NotEmptyUnreadable(rest, Parse(bytes).error); }
    }
  }

  lemma NotEmptyUnreadable(bytes: seq<U8>, e: DescriptorError)
    requires Unreadable(bytes, e)
    ensures bytes != []
  {
  }

  lemma ReachedAll(items: seq<Item>, n: nat)
    requires n == |items|
    ensures ApplyAll(START, items) == Reached(items, n)
  {
    ReachedThenRest(items, n);
  }

  lemma {:induction false} ReachedPrefix(items: seq<Item>, n: nat)
    requires n <= |items|
    ensures Reached(items[..n], n) == Reached(items, n)
    decreases n
  {
    if n > 0 {
      ReachedPrefix(items, n - 1);
      ReachedPrefix(items[..n], n - 1);
      assert items[..n][..n - 1] == items[..n - 1];
    }
  }
}
