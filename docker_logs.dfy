/**
 * The log-streaming bridge of app/routers/docker_logs.py: the blocking
 * reader `_read_logs` that turns decoded chunks into lines on a queue, the
 * consumer loop that turns queue items into socket events, and the entry
 * branches of `stream_container_logs`.
 *
 * The cross-thread `queue.put` is an ordered append to `BridgeQueue.items`,
 * and the reader runs to completion before the consumer starts; UTF-8
 * decoding with replacement is the per-chunk function `decode`.
 */
module DockerLogs {
  import opened Text
  import DS = DockerService

  /** A queue item: a text line, the marker `{"__error__": msg}`, or the sentinel `None`. */
  datatype Item = TextItem(text: string) | ErrorMarker(message: string) | Sentinel

  /** What is sent on the socket: a `log_line`, an `error` (with the container once streaming), or the close. */
  datatype Event = LogLine(container: string, data: string) | ErrorEvent(scope: Option<string>, data: string) | Close

  const INTERRUPTED := "Log stream interrupted: "
  const UNAVAILABLE := "Docker service is not available."

  /** The `asyncio.Queue` between reader and consumer, as the sequence of items not yet taken. */
  class BridgeQueue {
    var items: seq<Item>

    constructor()
      ensures items == []
    {
      items := [];
    }

    method Put(x: Item)
      modifies this
      ensures items == old(items) + [x]
    {
      items := items + [x];
    }

    method Get() returns (x: Item)
      requires items != []
      modifies this
      ensures x == old(items)[0] && items == old(items)[1..]
    {
      x := items[0];
      items := items[1..];
    }
  }

  // ---------------------------------------------------------------------------
  // Splitting text into lines

  /** One complete line: it ends with its newline and has no other. */
  predicate IsLine(s: string) {
    |s| >= 1 && s[|s| - 1] == '\n' && '\n' !in s[..|s| - 1]
  }

  predicate AllLines(ls: seq<string>) {
    forall i :: 0 <= i < |ls| ==> IsLine(ls[i])
  }

  /** The complete lines of a text, each with its newline, and what follows the last newline. */
  datatype Lines = Lines(complete: seq<string>, rest: string)

  /** Lines are read off a text one character at a time: a newline closes the line being built. */
  function Scan(t: string): Lines
    decreases |t|
  {
    if t == [] then Lines([], [])
    else
      var p := Scan(t[..|t| - 1]);
      if t[|t| - 1] == '\n' then Lines(p.complete + [p.rest + "\n"], [])
      else Lines(p.complete, p.rest + [t[|t| - 1]])
  }

  /** The texts laid end to end. */
  function Concat(ls: seq<string>): string {
    if ls == [] then [] else Concat(ls[..|ls| - 1]) + ls[|ls| - 1]
  }

  lemma ConcatSnoc(ls: seq<string>, x: string)
    ensures Concat(ls + [x]) == Concat(ls) + x
  {
    assert (ls + [x])[..|ls|] == ls;
  }

  /** Every scanned line is complete, and the rest holds no newline. */
  lemma {:induction false} ScanShape(t: string)
    ensures AllLines(Scan(t).complete) && '\n' !in Scan(t).rest
    decreases |t|
  {
    if t != [] {
      var p := Scan(t[..|t| - 1]);
      ScanShape(t[..|t| - 1]);
      if t[|t| - 1] == '\n' {
        var x := p.rest + "\n";
        assert x[..|x| - 1] == p.rest;
      }
    }
  }

  /** The lines and the rest put back together are the text: nothing is lost or added. */
  lemma {:induction false} ScanRecompose(t: string)
    ensures Concat(Scan(t).complete) + Scan(t).rest == t
    decreases |t|
  {
    if t != [] {
      var init, c := t[..|t| - 1], t[|t| - 1];
      var p := Scan(init);
      ScanRecompose(init);
      assert t == init + [c];
      if c == '\n' {
        ConcatSnoc(p.complete, p.rest + [c]);
        Assoc(Concat(p.complete), p.rest, [c]);
      } else {
        Assoc(Concat(p.complete), p.rest, [c]);
      }
    }
  }

  /** Appending text with no newline only extends the rest. */
  lemma {:induction false} ScanNoNewline(u: string, r: string)
    requires '\n' !in r
    ensures Scan(u + r) == Lines(Scan(u).complete, Scan(u).rest + r)
    decreases |r|
  {
    if r == [] {
      assert u + r == u;
      assert Scan(u).rest + r == Scan(u).rest;
    } else {
      var init, c := r[..|r| - 1], r[|r| - 1];
      ScanNoNewline(u, init);
      Assoc(u, init, [c]);
      assert r == init + [c];
      assert (u + r)[..|u + r| - 1] == u + init;
      Assoc(Scan(u).rest, init, [c]);
    }
  }

  /**
   * Complete lines followed by a newline-free rest can be read off a text
   * in one way only: they are what `Scan` finds.
   */
  lemma {:induction false} ScanUnique(ls: seq<string>, r: string, t: string)
    requires AllLines(ls) && '\n' !in r
    requires Concat(ls) + r == t
    ensures Scan(t) == Lines(ls, r)
    decreases |ls|
  {
    if ls == [] {
      ScanNoNewline([], r);
      assert [] + r == t;
    } else {
      var init, x := ls[..|ls| - 1], ls[|ls| - 1];
      assert ls == init + [x];
      var y := x[..|x| - 1];
      assert x == y + "\n";
      var u0 := Concat(init);
      ScanUnique(init, [], u0) by {
        assert u0 + [] == u0;
      }
      ScanNoNewline(u0, y);
      var u := (u0 + y) + "\n";
      assert u[..|u| - 1] == u0 + y;
      assert Scan(u) == Lines(init + [[] + y + "\n"], []);
      assert [] + y == y;
      ConcatSnoc(init, x);
      Assoc(u0, y, "\n");
      ScanNoNewline(u, r);
      assert u + r == t;
    }
  }

  // ---------------------------------------------------------------------------
  // The reader `_read_logs`

  /** The position of the first step that raises, or `|source|` when none does. */
  function FailIndex(source: seq<DS.SourceStep>): (k: nat)
    ensures k <= |source|
    ensures forall j :: 0 <= j < k ==> source[j].Chunk?
    ensures k < |source| ==> source[k].ReadFailed?
  {
    if source == [] || source[0].ReadFailed? then 0 else FailIndex(source[1..]) + 1
  }

  /** The decoded text of the chunks, in order. */
  function Decoded(source: seq<DS.SourceStep>, decode: seq<Byte> -> string): string {
    if source == [] then []
    else
      var last := source[|source| - 1];
      Decoded(source[..|source| - 1], decode) + (if last.Chunk? then decode(last.data) else [])
  }

  function TextItems(ls: seq<string>): (items: seq<Item>)
    ensures |items| == |ls|
    ensures forall i :: 0 <= i < |ls| ==> items[i] == TextItem(ls[i])
  {
    seq(|ls|, i requires 0 <= i < |ls| => TextItem(ls[i]))
  }

  /**
   * What `_read_logs` enqueues: the complete lines of the text decoded before
   * any failure; then either the error marker, or the leftover partial line
   * when there is one; then the sentinel.
   */
  function Produced(source: seq<DS.SourceStep>, decode: seq<Byte> -> string): (items: seq<Item>)
    ensures |items| >= 1 && items[|items| - 1] == Sentinel
  {
    var k := FailIndex(source);
    var t := Decoded(source[..k], decode);
    TextItems(Scan(t).complete)
    + (if k < |source| then [ErrorMarker(source[k].message)]
       else if Scan(t).rest == [] then []
       else [TextItem(Scan(t).rest)])
    + [Sentinel]
  }

  lemma {:induction false} ConcatAppend(a: seq<string>, b: seq<string>)
    ensures Concat(a + b) == Concat(a) + Concat(b)
    decreases |b|
  {
    if b == [] {
      assert a + b == a;
    } else {
      var init := b[..|b| - 1];
      ConcatAppend(a, init);
      assert (a + b)[..|a + b| - 1] == a + init;
      Assoc(Concat(a), Concat(init), b[|b| - 1]);
    }
  }

  /** One more line on the queue: the items so far, then its text item. */
  lemma TextItemsSnoc(start: seq<Item>, lines: seq<string>, x: string)
    ensures start + TextItems(lines + [x]) == (start + TextItems(lines)) + [TextItem(x)]
  {
    assert TextItems(lines + [x]) == TextItems(lines) + [TextItem(x)];
  }

  /** `line, buffer = buffer.split("\n", 1)` moves one complete line out of the buffer, losing nothing. */
  lemma SplitOffLine(lines: seq<string>, rest: string, buffer: string)
    requires '\n' in rest && AllLines(lines) && Concat(lines) + rest == buffer
    ensures var k := IndexOf(rest, '\n');
      && AllLines(lines + [rest[..k] + "\n"])
      && Concat(lines + [rest[..k] + "\n"]) + rest[k + 1..] == buffer
  {
    var k := IndexOf(rest, '\n');
    var line, after := rest[..k], rest[k + 1..];
    var x := line + "\n";
    assert rest == x + after by {
      assert rest[..k + 1] == x;
      assert rest == rest[..k + 1] + after;
    }
    assert IsLine(x) by { assert x[..k] == line; }
    assert AllLines(lines + [x]);
    ConcatSnoc(lines, x);
    Assoc(Concat(lines), x, after);
  }

  /**
   * The inner `while "\n" in buffer` loop of `_read_logs`: split off and
   * enqueue one line at a time until no newline is left.
   */
  method EmitLines(q: BridgeQueue, buffer: string) returns (rest: string, ghost lines: seq<string>)
    modifies q
    ensures AllLines(lines) && '\n' !in rest
    ensures Concat(lines) + rest == buffer
    ensures q.items == old(q.items) + TextItems(lines)
  {
    ghost var start := q.items;
    rest := buffer;
    lines := [];
    while '\n' in rest
      invariant AllLines(lines)
      invariant Concat(lines) + rest == buffer
      invariant q.items == start + TextItems(lines)
      decreases |rest|
    {
      var k := IndexOf(rest, '\n');
      var line := rest[..k];
      SplitOffLine(lines, rest, buffer);
      TextItemsSnoc(start, lines, line + "\n");
      q.Put(TextItem(line + "\n"));
      lines := lines + [line + "\n"];
      rest := rest[k + 1..];
    }
  }

  /** After one more chunk, the lines emitted so far and the buffer still recompose the decoded text. */
  lemma ChunkStep(source: seq<DS.SourceStep>, decode: seq<Byte> -> string, i: nat,
                  emitted: seq<string>, buffer: string, lines: seq<string>, rest: string)
    requires i < |source| && source[i].Chunk?
    requires AllLines(emitted) && AllLines(lines)
    requires Concat(emitted) + buffer == Decoded(source[..i], decode)
    requires Concat(lines) + rest == buffer + decode(source[i].data)
    ensures AllLines(emitted + lines)
    ensures Concat(emitted + lines) + rest == Decoded(source[..i + 1], decode)
  {
    var d := decode(source[i].data);
    assert source[..i + 1][..i] == source[..i];
    assert Decoded(source[..i + 1], decode) == Decoded(source[..i], decode) + d;
    ConcatAppend(emitted, lines);
    Assoc(Concat(emitted), Concat(lines), rest);
    Assoc(Concat(emitted), buffer, d);
  }

  lemma TextItemsAppend(start: seq<Item>, a: seq<string>, b: seq<string>)
    ensures start + TextItems(a + b) == (start + TextItems(a)) + TextItems(b)
  {
    assert TextItems(a + b) == TextItems(a) + TextItems(b);
  }

  /** When the source raises at `i`, what was emitted is all the reader enqueues before the marker. */
  lemma ProducedOnFailure(source: seq<DS.SourceStep>, decode: seq<Byte> -> string, i: nat,
                          emitted: seq<string>, buffer: string)
    requires i < |source| && source[i].ReadFailed?
    requires forall j :: 0 <= j < i ==> source[j].Chunk?
    requires AllLines(emitted) && '\n' !in buffer
    requires Concat(emitted) + buffer == Decoded(source[..i], decode)
    ensures Produced(source, decode) == TextItems(emitted) + [ErrorMarker(source[i].message)] + [Sentinel]
  {
    FailIndexAt(source, i);
    ScanUnique(emitted, buffer, Decoded(source[..i], decode));
  }

  /** When the source runs out, the emitted lines and the flushed buffer are all the reader enqueues. */
  lemma ProducedOnEnd(source: seq<DS.SourceStep>, decode: seq<Byte> -> string,
                      emitted: seq<string>, buffer: string)
    requires forall j :: 0 <= j < |source| ==> source[j].Chunk?
    requires AllLines(emitted) && '\n' !in buffer
    requires Concat(emitted) + buffer == Decoded(source, decode)
    ensures Produced(source, decode) ==
      TextItems(emitted) + (if buffer == [] then [] else [TextItem(buffer)]) + [Sentinel]
  {
    assert source[..|source|] == source;
    assert FailIndex(source) == |source|;
    ScanUnique(emitted, buffer, Decoded(source, decode));
  }

  /** `_read_logs`: buffer the decoded chunks and enqueue each line as soon as its newline arrives. */
  method ReadLogs(q: BridgeQueue, source: seq<DS.SourceStep>, decode: seq<Byte> -> string)
    modifies q
    ensures q.items == old(q.items) + Produced(source, decode)
  {
    ghost var start := q.items;
    ghost var emitted: seq<string> := [];
    var buffer := "";
    var i := 0;
    while i < |source|
      invariant 0 <= i <= |source|
      invariant forall j :: 0 <= j < i ==> source[j].Chunk?
      invariant AllLines(emitted) && '\n' !in buffer
      invariant Concat(emitted) + buffer == Decoded(source[..i], decode)
      invariant q.items == start + TextItems(emitted)
    {
      match source[i]
      case ReadFailed(message) =>
        ProducedOnFailure(source, decode, i, emitted, buffer);
        q.Put(ErrorMarker(message));
        q.Put(Sentinel);
        Assoc(start, TextItems(emitted) + [ErrorMarker(message)], [Sentinel]);
        Assoc(start, TextItems(emitted), [ErrorMarker(message)]);
        return;
      case Chunk(data) =>
        ghost var lines;
        var rest;
        rest, lines := EmitLines(q, buffer + decode(data));
        ChunkStep(source, decode, i, emitted, buffer, lines, rest);
        TextItemsAppend(start, emitted, lines);
        emitted := emitted + lines;
        buffer := rest;
        i := i + 1;
    }
    assert source[..i] == source;
    ProducedOnEnd(source, decode, emitted, buffer);
    ghost var tail: seq<Item> := if buffer == [] then [] else [TextItem(buffer)];
    if buffer != [] {
      q.Put(TextItem(buffer));
    }
    assert q.items == start + TextItems(emitted) + tail;
    q.Put(Sentinel);
    Assoc(start, TextItems(emitted) + tail, [Sentinel]);
    Assoc(start, TextItems(emitted), tail);
  }

  /** Exactly one sentinel is enqueued, and it is the last item, on every path. */
  lemma SentinelOnceLast(source: seq<DS.SourceStep>, decode: seq<Byte> -> string)
    ensures var p := Produced(source, decode);
      |p| >= 1 && p[|p| - 1] == Sentinel && forall j :: 0 <= j < |p| - 1 ==> p[j] != Sentinel
  {
  }

  /**
   * Every item before the last two is a complete line, and the one before
   * the sentinel is a line, the error marker, or a non-empty leftover with
   * no newline.
   */
  lemma ProducedShape(source: seq<DS.SourceStep>, decode: seq<Byte> -> string)
    ensures var p := Produced(source, decode);
      && (forall j :: 0 <= j < |p| - 2 ==> p[j].TextItem? && IsLine(p[j].text))
      && (|p| >= 2 ==>
            || (p[|p| - 2].TextItem? && p[|p| - 2].text != [] && '\n' !in p[|p| - 2].text[..|p[|p| - 2].text| - 1])
            || p[|p| - 2].ErrorMarker?)
  {
    var p := Produced(source, decode);
    var k := FailIndex(source);
    var t := Decoded(source[..k], decode);
    var ls := Scan(t).complete;
    ScanShape(t);
    var tail: seq<Item> :=
      if k < |source| then [ErrorMarker(source[k].message)]
      else if Scan(t).rest == [] then [] else [TextItem(Scan(t).rest)];
    assert p == TextItems(ls) + tail + [Sentinel];
    if tail == [] && |p| >= 2 {
      assert p[|p| - 2] == TextItem(ls[|ls| - 1]);
    }
  }

  /** The error marker is enqueued exactly when the source raised. */
  lemma MarkerIffFailure(source: seq<DS.SourceStep>, decode: seq<Byte> -> string)
    ensures var p := Produced(source, decode);
      (exists j :: 0 <= j < |p| && p[j].ErrorMarker?) <==> FailIndex(source) < |source|
  {
    var p := Produced(source, decode);
    var k := FailIndex(source);
    var ls := Scan(Decoded(source[..k], decode)).complete;
    if k < |source| {
      assert p[|ls|].ErrorMarker?;
    }
  }

  /** The texts of the text items, in queue order. */
  function ItemTexts(items: seq<Item>): string {
    if items == [] then []
    else ItemTexts(items[..|items| - 1]) + (if items[|items| - 1].TextItem? then items[|items| - 1].text else [])
  }

  lemma {:induction false} ItemTextsOfLines(ls: seq<string>)
    ensures ItemTexts(TextItems(ls)) == Concat(ls)
    decreases |ls|
  {
    if ls != [] {
      var init := ls[..|ls| - 1];
      ItemTextsOfLines(init);
      assert TextItems(ls)[..|ls| - 1] == TextItems(init);
    }
  }

  lemma {:induction false} ItemTextsAppend(a: seq<Item>, b: seq<Item>)
    ensures ItemTexts(a + b) == ItemTexts(a) + ItemTexts(b)
    decreases |b|
  {
    if b == [] {
      assert a + b == a;
    } else {
      var init, x := b[..|b| - 1], b[|b| - 1];
      ItemTextsAppend(a, init);
      assert (a + b)[..|a + b| - 1] == a + init;
      Assoc(ItemTexts(a), ItemTexts(init), if x.TextItem? then x.text else []);
    }
  }

  /** Markers and the sentinel carry no text. */
  lemma {:induction false} ItemTextsNoText(items: seq<Item>)
    requires forall j :: 0 <= j < |items| ==> !items[j].TextItem?
    ensures ItemTexts(items) == []
    decreases |items|
  {
    if items != [] {
      ItemTextsNoText(items[..|items| - 1]);
    }
  }

  /**
   * When the source does not raise, the enqueued texts put together are the
   * decoded chunks put together: lines depend on the text, not on where the
   * chunk boundaries fell.
   */
  lemma NoFailureKeepsText(source: seq<DS.SourceStep>, decode: seq<Byte> -> string)
    requires forall j :: 0 <= j < |source| ==> source[j].Chunk?
    ensures ItemTexts(Produced(source, decode)) == Decoded(source, decode)
  {
    var t := Decoded(source, decode);
    assert FailIndex(source) == |source| && source[..|source|] == source;
    var tail: seq<Item> := if Scan(t).rest == [] then [] else [TextItem(Scan(t).rest)];
    assert Produced(source, decode) == TextItems(Scan(t).complete) + tail + [Sentinel];
    ScanItemTexts(t);
  }

  /** The texts of the items a scanned text is queued as, the sentinel included, are that text. */
  lemma ScanItemTexts(t: string)
    ensures var tail: seq<Item> := if Scan(t).rest == [] then [] else [TextItem(Scan(t).rest)];
      ItemTexts(TextItems(Scan(t).complete) + tail + [Sentinel]) == t
  {
    var tail: seq<Item> := if Scan(t).rest == [] then [] else [TextItem(Scan(t).rest)];
    ItemTextsAppend(TextItems(Scan(t).complete), tail);
    ItemTextsAppend(TextItems(Scan(t).complete) + tail, [Sentinel]);
    ItemTextsOfLines(Scan(t).complete);
    ScanRecompose(t);
    assert ItemTexts(tail) == Scan(t).rest by {
      if Scan(t).rest != [] { assert tail[..0] == []; }
    }
    ItemTextsNoText([Sentinel]);
  }

  /** Two sources that raise nowhere and decode to the same text enqueue the same items. */
  lemma ChunkBoundariesIrrelevant(s1: seq<DS.SourceStep>, s2: seq<DS.SourceStep>, decode: seq<Byte> -> string)
    requires forall j :: 0 <= j < |s1| ==> s1[j].Chunk?
    requires forall j :: 0 <= j < |s2| ==> s2[j].Chunk?
    requires Decoded(s1, decode) == Decoded(s2, decode)
    ensures Produced(s1, decode) == Produced(s2, decode)
  {
    assert FailIndex(s1) == |s1| && s1[..|s1|] == s1;
    assert FailIndex(s2) == |s2| && s2[..|s2|] == s2;
  }

  /**
   * On a read failure the lines already complete stay, the partial line is
   * dropped, and one error marker comes before the sentinel.
   */
  lemma FailureKeepsCompleteLines(source: seq<DS.SourceStep>, decode: seq<Byte> -> string, k: nat)
    requires k < |source| && source[k].ReadFailed?
    requires forall j :: 0 <= j < k ==> source[j].Chunk?
    ensures Produced(source, decode) ==
      TextItems(Scan(Decoded(source[..k], decode)).complete) + [ErrorMarker(source[k].message), Sentinel]
    ensures ItemTexts(Produced(source, decode)) + Scan(Decoded(source[..k], decode)).rest == Decoded(source[..k], decode)
  {
    var t := Decoded(source[..k], decode);
    var items := TextItems(Scan(t).complete);
    var marks := [ErrorMarker(source[k].message), Sentinel];
    FailIndexAt(source, k);
    Assoc(items, [ErrorMarker(source[k].message)], [Sentinel]);
    ItemTextsAppend(items, marks);
    ItemTextsNoText(marks);
    ItemTextsOfLines(Scan(t).complete);
    ScanRecompose(t);
    assert ItemTexts(items) + ItemTexts(marks) == ItemTexts(items);
  }

  lemma {:induction false} FailIndexAt(source: seq<DS.SourceStep>, k: nat)
    requires k < |source| && source[k].ReadFailed?
    requires forall j :: 0 <= j < k ==> source[j].Chunk?
    ensures FailIndex(source) == k
    decreases k
  {
    if k > 0 {
      FailIndexAt(source[1..], k - 1);
    }
  }

  // ---------------------------------------------------------------------------
  // The consumer loop

  /** The events sent for the items: stop at the sentinel, or after reporting an error marker. */
  function ConsumerEvents(items: seq<Item>, containerId: string): (es: seq<Event>)
    ensures |es| <= |items|
  {
    if items == [] then []
    else match items[0]
      case Sentinel => []
      case ErrorMarker(m) => [ErrorEvent(Some(containerId), INTERRUPTED + m)]
      case TextItem(t) => [LogLine(containerId, t)] + ConsumerEvents(items[1..], containerId)
  }

  /** The number of items the consumer takes off the queue. */
  function Taken(items: seq<Item>): (n: nat)
    ensures n <= |items|
  {
    if items == [] then 0
    else if items[0].TextItem? then 1 + Taken(items[1..])
    else 1
  }

  /** The consumer `while True` loop: one `log_line` per text item until the sentinel or an error marker. */
  method Consume(q: BridgeQueue, containerId: string) returns (events: seq<Event>)
    requires Sentinel in q.items
    modifies q
    ensures events == ConsumerEvents(old(q.items), containerId)
    ensures q.items == old(q.items)[Taken(old(q.items))..]
  {
    ghost var all := q.items;
    ghost var n := 0;
    events := [];
    while true
      invariant 0 <= n <= |all| && q.items == all[n..]
      invariant Sentinel in q.items
      invariant events + ConsumerEvents(q.items, containerId) == ConsumerEvents(all, containerId)
      invariant Taken(all) == n + Taken(q.items)
      decreases |q.items|
    {
      ghost var before := q.items;
      var item := q.Get();
      n := n + 1;
      assert all[n..] == before[1..];
      if item.Sentinel? {
        break;
      }
      if item.ErrorMarker? {
        events := events + [ErrorEvent(Some(containerId), INTERRUPTED + item.message)];
        break;
      }
      assert Sentinel in q.items by {
        assert before == [item] + q.items;
      }
      events := events + [LogLine(containerId, item.text)];
    }
  }

  /** The `log_line` events for a run of lines. */
  function LineEvents(ls: seq<string>, containerId: string): (es: seq<Event>)
    ensures |es| == |ls|
    ensures forall i :: 0 <= i < |ls| ==> es[i] == LogLine(containerId, ls[i])
  {
    seq(|ls|, i requires 0 <= i < |ls| => LogLine(containerId, ls[i]))
  }

  lemma {:induction false} ConsumeLines(ls: seq<string>, rest: seq<Item>, containerId: string)
    ensures ConsumerEvents(TextItems(ls) + rest, containerId) == LineEvents(ls, containerId) + ConsumerEvents(rest, containerId)
    ensures Taken(TextItems(ls) + rest) == |ls| + Taken(rest)
    decreases |ls|
  {
    if ls != [] {
      var items := TextItems(ls) + rest;
      assert items[1..] == TextItems(ls[1..]) + rest;
      ConsumeLines(ls[1..], rest, containerId);
      assert LineEvents(ls, containerId) == [LogLine(containerId, ls[0])] + LineEvents(ls[1..], containerId);
    } else {
      assert TextItems(ls) + rest == rest;
    }
  }

  /**
   * Reader and consumer together: one `log_line` per enqueued line in order,
   * then one `Log stream interrupted` error exactly when the source raised.
   * The consumer never waits on an empty queue: it takes every item, or all
   * but the sentinel when it stops at the error marker.
   */
  lemma BridgeEvents(source: seq<DS.SourceStep>, decode: seq<Byte> -> string, containerId: string)
    ensures var p := Produced(source, decode);
      var k := FailIndex(source);
      var t := Decoded(source[..k], decode);
      && Taken(p) == (if k < |source| then |p| - 1 else |p|)
      && ConsumerEvents(p, containerId) ==
           LineEvents(Scan(t).complete, containerId)
           + (if k < |source| then [ErrorEvent(Some(containerId), INTERRUPTED + source[k].message)]
              else if Scan(t).rest == [] then []
              else [LogLine(containerId, Scan(t).rest)])
  {
    var k := FailIndex(source);
    var t := Decoded(source[..k], decode);
    var tail: seq<Item> :=
      (if k < |source| then [ErrorMarker(source[k].message)]
       else if Scan(t).rest == [] then [] else [TextItem(Scan(t).rest)]) + [Sentinel];
    assert Produced(source, decode) == TextItems(Scan(t).complete) + tail;
    ConsumeLines(Scan(t).complete, tail, containerId);
    if k == |source| && Scan(t).rest != [] {
      assert tail[1..] == [Sentinel];
    }
  }

  /**
   * A source that raises after one chunk holding one complete line and a
   * partial one gives exactly one `log_line` and then one error event.
   */
  lemma FailAfterOneChunk(a: seq<Byte>, m: string, line: string, partial: string, decode: seq<Byte> -> string, containerId: string)
    requires decode(a) == line + "\n" + partial
    requires '\n' !in line && '\n' !in partial
    ensures ConsumerEvents(Produced([DS.Chunk(a), DS.ReadFailed(m)], decode), containerId)
      == [LogLine(containerId, line + "\n"), ErrorEvent(Some(containerId), INTERRUPTED + m)]
  {
    var source := [DS.Chunk(a), DS.ReadFailed(m)];
    FailIndexAt(source, 1);
    var t := Decoded(source[..1], decode);
    assert t == decode(a) by {
      var one := [DS.Chunk(a)];
      assert source[..1] == one && one[..0] == [];
      assert Decoded(one, decode) == Decoded([], decode) + decode(a);
    }
    ScanUnique([line + "\n"], partial, t) by {
      assert IsLine(line + "\n") by { assert (line + "\n")[..|line|] == line; }
      assert [line + "\n"][..0] == [];
    }
    BridgeEvents(source, decode, containerId);
  }

  // ---------------------------------------------------------------------------
  // The socket handler `stream_container_logs`

  /** The events of one log session, given what calling `stream_logs` gave. */
  function SessionEvents(containerId: string, outcome: DS.StreamOutcome, decode: seq<Byte> -> string): (es: seq<Event>)
    ensures !(outcome.Returned? && outcome.stream.Some?) ==> |es| == 2 && es[0].ErrorEvent? && es[1] == Close
  {
    match outcome
    case RaisedNotFound =>
      [ErrorEvent(None, "Container '" + containerId + "' not found."), Close]
    case RaisedApiError(explanation, text) =>
      [ErrorEvent(None, "Docker error for '" + containerId + "': " + (if explanation != [] then explanation else text)), Close]
    case Returned(None) =>
      [ErrorEvent(None, UNAVAILABLE), Close]
    case Returned(Some(source)) =>
      ConsumerEvents(Produced(source, decode), containerId)
  }

  /**
   * The body of `stream_container_logs` after `accept`: on an entry failure
   * one error event and the close, with no reader started; otherwise the
   * reader fills the queue and the consumer drains it.
   */
  method HandleLogSession(containerId: string, outcome: DS.StreamOutcome, decode: seq<Byte> -> string)
    returns (events: seq<Event>, readerStarted: bool)
    ensures events == SessionEvents(containerId, outcome, decode)
    ensures readerStarted <==> outcome.Returned? && outcome.stream.Some?
    ensures !readerStarted ==> |events| == 2 && events[0].ErrorEvent? && events[0].scope.None? && events[1] == Close
  {
    if !(outcome.Returned? && outcome.stream.Some?) {
      events, readerStarted := SessionEvents(containerId, outcome, decode), false;
    } else {
      var source := outcome.stream.value;
      var q := new BridgeQueue();
      ReadLogs(q, source, decode);
      assert q.items == Produced(source, decode);
      SentinelOnceLast(source, decode);
      events := Consume(q, containerId);
      readerStarted := true;
    }
  }

  /**
   * `stream_container_logs` against the service as written, where
   * `stream_logs(container_id, tail=200)` turns `NotFound` and `APIError`
   * into `None` and so never raises the two exceptions the handler catches.
   */
  method StreamContainerLogs(svc: DS.DockerService, containerId: string, decode: seq<Byte> -> string)
    returns (events: seq<Event>, readerStarted: bool)
    ensures events == SessionEvents(containerId, DS.Returned(DS.StreamLogsSpec(svc.available, svc.client, containerId)), decode)
    ensures readerStarted <==> DS.StreamLogsSpec(svc.available, svc.client, containerId).Some?
  {
    var stream := svc.StreamLogs(containerId);
    events, readerStarted := HandleLogSession(containerId, DS.Returned(stream), decode);
  }

  /**
   * As written, a container the engine does not know is reported as
   * `"Docker service is not available."`, although the service is up.
   */
  lemma MissingContainerReportedAsUnavailable(engine: DS.Engine, containerId: string, decode: seq<Byte> -> string)
    requires containerId !in engine.lookups
    ensures SessionEvents(containerId, DS.Returned(DS.StreamLogsSpec(true, Some(engine), containerId)), decode)
      == [ErrorEvent(None, UNAVAILABLE), Close]
  {
  }

  /** With the lookup failures left to propagate, the same container is reported as not found. */
  lemma CorrectedLookupReportsNotFound(engine: DS.Engine, containerId: string, decode: seq<Byte> -> string)
    requires containerId !in engine.lookups
    ensures SessionEvents(containerId, DS.StreamLogsOutcome(true, Some(engine), containerId), decode)
      == [ErrorEvent(None, "Container '" + containerId + "' not found."), Close]
  {
  }
}
