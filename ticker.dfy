/** The hover ticker (techportfolio/app/components/TickerHoverEffect.tsx): the text built
    from the items, the twenty repetitions shown while hovered, and the hover flag. */
module Ticker {

  const Separator := " \U{2022} "
  const Repeats := 20
  const Marker := "*"

  /** `items.join(sep)`: "" for no items, the item itself for one, `sep` between neighbours. */
  function Join(items: seq<string>, sep: string): (r: string)
    ensures items == [] ==> r == ""
    ensures |items| >= 1 ==> |r| >= |items[0]| && r[..|items[0]|] == items[0]
    decreases |items|
  {
    if |items| == 0 then ""
    else if |items| == 1 then items[0]
    else items[0] + sep + Join(items[1..], sep)
  }

  function TotalLength(items: seq<string>): nat
    decreases |items|
  {
    if items == [] then 0 else |items[0]| + TotalLength(items[1..])
  }

  /** The length of n >= 1 joined items: their total length plus n - 1 separators.
      `JoinSnoc` states the contents. */
  lemma {:induction false} JoinLength(items: seq<string>, sep: string)
    requires |items| >= 1
    ensures |Join(items, sep)| == TotalLength(items) + (|items| - 1) * |sep|
    decreases |items|
  {
    if |items| > 1 {
      JoinLength(items[1..], sep);
    }
  }

  /** Appending an item appends one separator and the item. */
  lemma {:induction false} JoinSnoc(items: seq<string>, x: string, sep: string)
    requires |items| >= 1
    ensures Join(items + [x], sep) == Join(items, sep) + sep + x
    decreases |items|
  {
    if |items| == 1 {
      assert items + [x] == [items[0], x];
      assert [items[0], x][1..] == [x];
    } else {
      assert (items + [x])[1..] == items[1..] + [x];
      JoinSnoc(items[1..], x, sep);
    }
  }

  /** `text`: the single item, or all items joined by " • ". The special case for one item
      agrees with the join, so `text` is always the join. */
  function Text(items: seq<string>): (r: string)
    ensures r == Join(items, Separator)
  {
    if |items| == 1 then items[0] else Join(items, Separator)
  }

  /** No items give the empty text, one item gives that item, and n >= 1 items give their
      total length plus n - 1 separators. */
  lemma TextLength(items: seq<string>)
    ensures items == [] ==> Text(items) == ""
    ensures |items| == 1 ==> Text(items) == items[0]
    ensures |items| >= 1 ==> |Text(items)| == TotalLength(items) + (|items| - 1) * |Separator|
  {
    if |items| >= 1 {
      JoinLength(items, Separator);
    }
  }

  /** `Array(20).fill(text)`. */
  function Repeat(text: string, n: nat): (r: seq<string>)
    ensures |r| == n
    ensures forall i :: 0 <= i < n ==> r[i] == text
    decreases n
  {
    if n == 0 then [] else Repeat(text, n - 1) + [text]
  }

  /** `tickerItems`: twenty copies of the text. */
  function TickerItems(text: string): (r: seq<string>)
    ensures |r| == Repeats
    ensures forall i :: 0 <= i < Repeats ==> r[i] == text
  {
    Repeat(text, Repeats)
  }

  /** One scrolling entry: the text followed by the `*` marker. */
  datatype Entry = Entry(item: string, marker: string)

  datatype Rendering = StaticText(text: string) | Scrolling(entries: seq<Entry>)

  function EntriesOf(items: seq<string>): (r: seq<Entry>)
    ensures |r| == |items|
    ensures forall i :: 0 <= i < |items| ==> r[i] == Entry(items[i], Marker)
    decreases |items|
  {
    if items == [] then [] else [Entry(items[0], Marker)] + EntriesOf(items[1..])
  }

  class TickerHoverEffect {
    const items: seq<string>
    var isHovered: bool

    constructor (items: seq<string>)
      ensures this.items == items && !isHovered
    {
      this.items := items;
      isHovered := false;
    }

    method MouseEnter()
      modifies this`isHovered
      ensures isHovered
    {
      isHovered := true;
    }

    method MouseLeave()
      modifies this`isHovered
      ensures !isHovered
    {
      isHovered := false;
    }

    /** Not hovered: the text once, static. Hovered: twenty copies of the text, each with
        its marker. */
    function Render(): (r: Rendering)
      reads this
      ensures !isHovered ==> r == StaticText(Text(items))
      ensures isHovered ==> r.Scrolling? && |r.entries| == Repeats
      ensures isHovered ==> forall i :: 0 <= i < Repeats ==> r.entries[i] == Entry(Text(items), Marker)
    {
      if !isHovered then StaticText(Text(items)) else Scrolling(EntriesOf(TickerItems(Text(items))))
    }
  }
}
