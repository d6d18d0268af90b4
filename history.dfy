/** The per-user history of solved expressions: `MathBot.format_result` records
    every successful answer and keeps the newest ten, and the "history" button
    of `MathBot.button_handler` lists the newest five, newest first. */
module History {
  import opened Wrappers
  import opened Dispatcher

  /** The number of entries kept per user. */
  const Capacity: nat := 10
  /** The number of entries the history button lists. */
  const ViewSize: nat := 5
  /** The number of characters of a result the listing shows. */
  const PreviewLength: nat := 50

  /** One history entry: the ISO time stamp, the raw message, `str(result)` and
      the explanation steps. */
  datatype Item = Item(timestamp: string, expression: string, result: string, steps: seq<Step>)

  /** Python's `s[-n:]`: the last `n` elements, or all of them when there are
      fewer. */
  function Newest<T>(s: seq<T>, n: nat): seq<T>
  {
    if |s| <= n then s else s[|s| - n..]
  }

  /** Taking the newest `n` before appending more loses nothing that taking
      the newest `n` afterwards would keep. */
  lemma NewestOfNewest<T>(a: seq<T>, b: seq<T>, n: nat)
    ensures Newest(Newest(a, n) + b, n) == Newest(a + b, n)
  {
    var k := |Newest(a, n)|;
    assert Newest(a, n) + b == (a + b)[|a| - k..];
  }

  /** Appending one entry and, past `Capacity` entries, dropping the oldest. */
  function Record<T>(h: seq<T>, item: T): (r: seq<T>)
    ensures |r| == if |h| < Capacity then |h| + 1 else Capacity
    ensures r == (h + [item])[|h| + 1 - |r|..]
    ensures r[|r| - 1] == item
  {
    var appended := h + [item];
    if |appended| > Capacity then appended[|appended| - Capacity..] else appended
  }

  /** Recording is appending and then keeping the newest `Capacity`. */
  lemma RecordIsNewest<T>(h: seq<T>, item: T)
    ensures Record(h, item) == Newest(h + [item], Capacity)
  {
  }

  /** The history left by answering `items` one after another. */
  function RecordEach<T>(h: seq<T>, items: seq<T>): seq<T>
    decreases |items|
  {
    if items == [] then h else RecordEach(Record(h, items[0]), items[1..])
  }

  /** However many answers a user receives, the history holds the newest ten of
      them (with what came before), oldest first. */
  lemma {:induction false} RecordEachKeepsNewest<T>(h: seq<T>, items: seq<T>)
    requires |h| <= Capacity
    ensures RecordEach(h, items) == Newest(h + items, Capacity)
    decreases |items|
  {
    if items != [] {
      var first, rest := items[0], items[1..];
      assert items == [first] + rest;
      calc {
        RecordEach(h, items);
        RecordEach(Record(h, first), rest);
        { RecordEachKeepsNewest(Record(h, first), rest); }
        Newest(Record(h, first) + rest, Capacity);
        { RecordIsNewest(h, first); }
        Newest(Newest(h + [first], Capacity) + rest, Capacity);
        { NewestOfNewest(h + [first], rest, Capacity); }
        Newest(h + [first] + rest, Capacity);
        { assert h + [first] + rest == h + items; }
        Newest(h + items, Capacity);
      }
    }
  }

  /** `item['result'][:50]` followed by `...` when the result is longer. */
  function Preview(s: string): string {
    if |s| > PreviewLength then s[..PreviewLength] + "..." else s
  }

  /** A result of at most fifty characters is shown whole; a longer one is cut to
      its first fifty, followed by an ellipsis, so the reader can tell the two
      apart. */
  lemma PreviewShape(s: string)
    ensures |s| <= PreviewLength ==> Preview(s) == s
    ensures |s| > PreviewLength ==>
      |Preview(s)| == PreviewLength + 3 && Preview(s)[..PreviewLength] == s[..PreviewLength]
      && Preview(s)[PreviewLength..] == "..."
    ensures |Preview(s)| > PreviewLength <==> |s| > PreviewLength
  {
  }

  /** `str(result)`, where a missing result prints as `None`; printing a value
      may raise. */
  function Printed(e: Engine, r: Option<Sym>): Result<string> {
    match r
    case None => Success("None")
    case Some(v) => e.show(v)
  }

  /** The reply `format_result` builds: the steps and the pretty-printed answer,
      or the expression and the error. The Markdown around them is not
      modelled. */
  datatype Reply = Answer(steps: seq<Step>, pretty: string) | Apology(expression: string, error: string)

  /** Whether `format_result` gets through a successful answer: `pretty` of the
      result, then `str` of it for the history entry, both without raising. */
  predicate Answered(e: Engine, res: Solution) {
    res.Solved? && e.pretty(res.result).Success? && Printed(e, res.result).Success?
  }

  /** What `format_result` returns, or the exception it raises: an apology for a
      failed answer; for a successful one, the steps and the pretty-printed
      result, unless printing the result raises. */
  function Response(e: Engine, res: Solution, expression: string): (r: Result<Reply>)
    ensures r.Success? <==> res.Failed? || Answered(e, res)
    ensures r.Success? && r.value.Answer? ==> res.Solved? && r.value == Answer(res.steps, e.pretty(res.result).value)
    ensures res.Failed? ==> r == Success(Apology(expression, res.error))
  {
    if res.Failed? then Success(Apology(expression, res.error))
    else
      var picture :- e.pretty(res.result);
      var _ :- Printed(e, res.result);
      Success(Answer(res.steps, picture))
  }

  /** One line of the history listing: its number, the expression and the
      shortened result. */
  datatype Line = Line(number: nat, expression: string, preview: string)

  /** The history button's text: the "empty" message, or the listing. */
  datatype HistoryView = Empty | Listing(lines: seq<Line>)

  function Reverse<T>(s: seq<T>): (r: seq<T>)
    ensures |r| == |s|
    ensures forall i :: 0 <= i < |s| ==> r[i] == s[|s| - 1 - i]
  {
    if s == [] then [] else Reverse(s[1..]) + [s[0]]
  }

  /** `enumerate(items, start)` rendered as listing lines. */
  function Numbered(items: seq<Item>, start: nat): seq<Line>
    decreases |items|
  {
    if items == [] then []
    else [Line(start, items[0].expression, Preview(items[0].result))] + Numbered(items[1..], start + 1)
  }

  /** The listing for a user with history `h`. */
  function View(h: seq<Item>): HistoryView {
    if h == [] then Empty else Listing(Numbered(Reverse(Newest(h, ViewSize)), 1))
  }

  /** The `k`th numbered line shows the `k`th item under the number `start + k`. */
  lemma {:induction false} NumberedAt(items: seq<Item>, start: nat, k: nat)
    requires k < |items|
    ensures |Numbered(items, start)| == |items|
    ensures Numbered(items, start)[k] == Line(start + k, items[k].expression, Preview(items[k].result))
    decreases |items|
  {
    if k == 0 {
      NumberedLength(items[1..], start + 1);
    } else {
      NumberedAt(items[1..], start + 1, k - 1);
    }
  }

  lemma {:induction false} NumberedLength(items: seq<Item>, start: nat)
    ensures |Numbered(items, start)| == |items|
    decreases |items|
  {
    if items != [] {
      NumberedLength(items[1..], start + 1);
    }
  }

  /** The listing shows at most five entries, newest first, numbered from 1, each
      with its expression and the preview of its result. */
  lemma ViewNewestFirst(h: seq<Item>)
    requires h != []
    ensures View(h).Listing?
    ensures |View(h).lines| == if |h| < ViewSize then |h| else ViewSize
    ensures forall k :: 0 <= k < |View(h).lines| ==>
      View(h).lines[k] == Line(k + 1, h[|h| - 1 - k].expression, Preview(h[|h| - 1 - k].result))
  {
    var recent := Newest(h, ViewSize);
    var lines := Numbered(Reverse(recent), 1);
    assert View(h) == Listing(lines);
    NewestLength(h, ViewSize);
    NumberedLength(Reverse(recent), 1);
    forall k | 0 <= k < |lines|
      ensures lines[k] == Line(k + 1, h[|h| - 1 - k].expression, Preview(h[|h| - 1 - k].result))
    {
      NumberedAt(Reverse(recent), 1, k);
      NewestAt(h, ViewSize, k);
    }
  }

  lemma NewestLength<T>(s: seq<T>, n: nat)
    ensures |Newest(s, n)| == if |s| < n then |s| else n
  {
  }

  /** The `k`th element from the end is the same in the newest `n`. */
  lemma NewestAt<T>(s: seq<T>, n: nat, k: nat)
    requires k < |s| && k < n
    ensures k < |Newest(s, n)| && Newest(s, n)[|Newest(s, n)| - 1 - k] == s[|s| - 1 - k]
  {
  }

  /** Right after a successful answer, the listing starts with it. */
  lemma LatestListedFirst(h: seq<Item>, item: Item)
    ensures View(Record(h, item)).Listing?
    ensures View(Record(h, item)).lines[0] == Line(1, item.expression, Preview(item.result))
  {
    ViewNewestFirst(Record(h, item));
  }

  /** The history of a user, `[]` for one the store has never seen. */
  function Lookup(entries: map<int, seq<Item>>, userId: int): seq<Item> {
    if userId in entries then entries[userId] else []
  }

  /** `USER_HISTORY`: every user's history, keyed by Telegram user id. */
  class Store {
    var entries: map<int, seq<Item>>

    /** No user's history is longer than `Capacity`. */
    predicate Valid()
      reads this
    {
      forall u :: u in entries ==> |entries[u]| <= Capacity
    }

    constructor ()
      ensures entries == map[] && Valid()
    {
      entries := map[];
    }

    /** `format_result`: creates the user's history on first contact, records a
        successful answer with the time `now`, and builds the reply. */
    method FormatResult(e: Engine, res: Solution, expression: string, userId: int, now: string)
      returns (reply: Result<Reply>)
      requires Valid()
      modifies this
      ensures Valid()
      ensures entries == old(entries)[userId :=
        if Answered(e, res)
        then Record(Lookup(old(entries), userId), Item(now, expression, Printed(e, res.result).value, res.steps))
        else Lookup(old(entries), userId)]
      ensures reply == Response(e, res, expression)
    {
      entries := entries[userId := Lookup(entries, userId)];
      reply := Response(e, res, expression);
      if reply.Success? && reply.value.Answer? {
        Remember(userId, Item(now, expression, Printed(e, res.result).value, res.steps));
      }
    }

    /** Appending to the caller's list and keeping its newest ten entries. */
    method Remember(userId: int, item: Item)
      requires Valid()
      modifies this
      ensures Valid()
      ensures entries == old(entries)[userId := Record(Lookup(old(entries), userId), item)]
    {
      var list := Lookup(entries, userId) + [item];
      if |list| > Capacity {
        list := list[|list| - Capacity..];
      }
      assert list == Record(Lookup(entries, userId), item);
      entries := entries[userId := list];
    }

    /** The "history" button: the newest five entries, newest first. */
    method ShowHistory(userId: int) returns (view: HistoryView)
      ensures view == View(Lookup(entries, userId))
    {
      if userId !in entries || entries[userId] == [] {
        return Empty;
      }
      var h := entries[userId];
      var recent := if |h| <= ViewSize then h else h[|h| - ViewSize..];
      var lines: seq<Line> := [];
      var i := 0;
      while i < |recent|
        invariant 0 <= i <= |recent|
        invariant |lines| == i
        invariant forall k :: 0 <= k < i ==>
          lines[k] == Line(k + 1, recent[|recent| - 1 - k].expression, Preview(recent[|recent| - 1 - k].result))
      {
        var item := recent[|recent| - 1 - i];
        lines := lines + [Line(i + 1, item.expression, Preview(item.result))];
        i := i + 1;
      }
      ViewNewestFirst(h);
      assert recent == Newest(h, ViewSize);
      assert lines == View(h).lines;
      return Listing(lines);
    }
  }
}
