/** Reassembly of the server's event stream in the browser (web/src/logs/client.ts) and the
    framing the server writes (api/internal/httpapi/log_handlers.go).

    JSON is a parameter: `parse` is `JSON.parse` (`None` when it throws) and `encode` is
    `json.Marshal`. Reads deliver decoded text. */
module EventStream {
  import opened Wrappers
  import opened Text

  const BLANK := "\n\n"
  const PREFIX := "data: "

  /** What the caller of `tailSsh` observes: the events, and whether the call threw. */
  datatype Delivery<E> = Delivery(events: seq<E>, threw: bool)

  /** The first row that starts with the prefix, as `find` returns it. */
  function FindData(rows: seq<string>): (found: Option<string>)
    ensures found.Some? ==> PREFIX <= found.value
  {
    if rows == [] then None
    else if PREFIX <= rows[0] then Some(rows[0])
    else FindData(rows[1..])
  }

  /** The events of complete frames, up to the first payload that does not parse. */
  function Deliver<E>(frames: seq<string>, parse: string -> Option<E>): Delivery<E> {
    if frames == [] then Delivery([], false)
    else
      match FindData(Split(frames[0], "\n"))
      case None => Deliver(frames[1..], parse)
      case Some(line) =>
        match parse(line[|PREFIX|..])
        case None => Delivery([], true)
        case Some(e) =>
          var rest := Deliver(frames[1..], parse);
          Delivery([e] + rest.events, rest.threw)
  }

  function Concat(pieces: seq<string>): string {
    if pieces == [] then "" else pieces[0] + Concat(pieces[1..])
  }

  /** The reference: the whole text is known at once. The text after the last blank line
      never forms a frame. */
  function Whole<E>(text: string, parse: string -> Option<E>): Delivery<E> {
    Deliver(Init(Split(text, BLANK)), parse)
  }

  lemma {:induction false} DeliverAppend<E>(a: seq<string>, b: seq<string>, parse: string -> Option<E>)
    ensures var first := Deliver(a, parse);
            Deliver(a + b, parse) ==
            if first.threw then first
            else Delivery(first.events + Deliver(b, parse).events, Deliver(b, parse).threw)
  {
    if a == [] {
      assert a + b == b;
    } else {
      assert (a + b)[1..] == a[1..] + b;
      DeliverAppend(a[1..], b, parse);
    }
  }

  lemma {:induction false} ConcatSnoc(pieces: seq<string>, p: string)
    ensures Concat(pieces + [p]) == Concat(pieces) + p
  {
    if pieces == [] {
      assert pieces + [p] == [p];
    } else {
      assert (pieces + [p])[1..] == pieces[1..] + [p];
      ConcatSnoc(pieces[1..], p);
    }
  }

  lemma {:induction false} ConcatTail(pieces: seq<string>, n: nat)
    requires n <= |pieces|
    ensures Concat(pieces) == Concat(pieces[..n]) + Concat(pieces[n..])
  {
    if n == 0 {
      assert pieces[0..] == pieces;
    } else {
      ConcatTail(pieces, n - 1);
      assert pieces[..n] == pieces[..n - 1] + [pieces[n - 1]];
      ConcatSnoc(pieces[..n - 1], pieces[n - 1]);
      assert pieces[n - 1..][1..] == pieces[n..];
      var a, b, c := Concat(pieces[..n - 1]), pieces[n - 1], Concat(pieces[n..]);
      assert a + (b + c) == (a + b) + c;
    }
  }

  lemma InitAppend(x: string, y: string)
    ensures Init(Split(x + y, BLANK)) == Init(Split(x, BLANK)) + Init(Split(Last(Split(x, BLANK)) + y, BLANK))
    ensures Last(Split(x + y, BLANK)) == Last(Split(Last(Split(x, BLANK)) + y, BLANK))
  {
    SplitAppend(x, y, BLANK);
    var a, b := Init(Split(x, BLANK)), Split(Last(Split(x, BLANK)) + y, BLANK);
    assert (a + b)[..|a + b| - 1] == a + b[..|b| - 1];
  }

  /** An event once delivered stays delivered, in its place, whatever text follows; and
      nothing is delivered after a payload that does not parse. */
  lemma DeliveredStays<E>(x: string, y: string, parse: string -> Option<E>)
    ensures Whole(x, parse).events <= Whole(x + y, parse).events
    ensures Whole(x, parse).threw ==> Whole(x + y, parse) == Whole(x, parse)
  {
    InitAppend(x, y);
    DeliverAppend(Init(Split(x, BLANK)), Init(Split(Last(Split(x, BLANK)) + y, BLANK)), parse);
  }

  /** The inner loop of `tailSsh`: the frames completed by one read. */
  method DeliverChunks<E>(chunks: seq<string>, parse: string -> Option<E>) returns (events: seq<E>, threw: bool)
    ensures Delivery(events, threw) == Deliver(chunks, parse)
  {
    events, threw := [], false;
    var k := 0;
    while k < |chunks|
      invariant 0 <= k <= |chunks| && !threw
      invariant var rest := Deliver(chunks[k..], parse);
                Deliver(chunks, parse) == Delivery(events + rest.events, rest.threw)
    {
      var line := FindData(Split(chunks[k], "\n"));
      assert chunks[k..][1..] == chunks[k + 1..];
      if line.Some? {
        var event := parse(line.value[|PREFIX|..]);
        if event.None? {
          threw := true;
          return;
        }
        events := events + [event.value];
      }
      k := k + 1;
    }
  }

  /** The reassembly loop. Its result is that of the uncut text, whatever the pieces:
      every way of cutting one stream gives the same events. */
  method TailSsh<E>(pieces: seq<string>, parse: string -> Option<E>) returns (events: seq<E>, threw: bool)
    ensures Delivery(events, threw) == Whole(Concat(pieces), parse)
  {
    events, threw := [], false;
    var buffer := "";
    ghost var text := "";
    var n := 0;
    while n < |pieces|
      invariant 0 <= n <= |pieces|
      invariant text == Concat(pieces[..n])
      invariant buffer == Last(Split(text, BLANK))
      invariant !threw && Delivery(events, false) == Whole(text, parse)
    {
      var chunks := Split(buffer + pieces[n], BLANK);
      InitAppend(text, pieces[n]);
      DeliverAppend(Init(Split(text, BLANK)), Init(chunks), parse);
      buffer := Last(chunks);
      var more;
      more, threw := DeliverChunks(Init(chunks), parse);
      events := events + more;
      ConcatSnoc(pieces[..n], pieces[n]);
      assert pieces[..n] + [pieces[n]] == pieces[..n + 1];
      text := text + pieces[n];
      n := n + 1;
      if threw {
        ConcatTail(pieces, n);
        DeliveredStays(text, Concat(pieces[n..]), parse);
        return;
      }
    }
    assert pieces[..n] == pieces;
  }

  // ---------------------------------------------------------------- the server's framing

  /** What `sendEvent` writes for one payload. */
  function Frame<E>(e: E, encode: E -> string): string {
    PREFIX + encode(e) + BLANK
  }

  function ServerText<E>(payloads: seq<E>, encode: E -> string): string {
    if payloads == [] then "" else Frame(payloads[0], encode) + ServerText(payloads[1..], encode)
  }

  predicate NoNewline(s: string) {
    forall i :: 0 <= i < |s| ==> s[i] != '\n'
  }

  lemma OccursFirst(s: string, sep: string)
    requires sep != ""
    ensures forall j :: OccursAt(s, sep, j) ==> j < |s| && s[j] == sep[0]
  {
    forall j | OccursAt(s, sep, j)
      ensures s[j] == sep[0]
    {
      assert s[j] == s[j..j + |sep|][0];
    }
  }

  /** A frame followed by anything: the first piece is the data row and the rest is untouched. */
  lemma SplitFrame(row: string, rest: string)
    requires NoNewline(row)
    ensures Split(row + BLANK + rest, BLANK) == [row] + Split(rest, BLANK)
  {
    var s := row + BLANK + rest;
    assert s[|row|..|row| + 2] == BLANK;
    assert OccursAt(s, BLANK, |row|);
    OccursFirst(s, BLANK);
    assert forall j :: 0 <= j < |row| ==> s[j] == row[j];
    assert IndexOf(s, BLANK) == |row|;
    assert s[..|row|] == row && s[|row| + 2..] == rest;
  }

  /** On the server's framing the browser delivers exactly the payloads sent, in order, and
      never throws. `tail` is an unfinished frame at the end of the stream: nothing of it
      is delivered. Stated for the whole text; `TailSsh` extends it to every way of cutting. */
  lemma {:induction false} DeliversPayloads<E(!new)>(payloads: seq<E>, tail: string, encode: E -> string,
                                                     parse: string -> Option<E>)
    requires forall e :: parse(encode(e)) == Some(e) && NoNewline(encode(e))
    requires IndexOf(tail, BLANK) == -1
    ensures Whole(ServerText(payloads, encode) + tail, parse) == Delivery(payloads, false)
  {
    if payloads == [] {
      assert "" + tail == tail;
      assert Init(Split(tail, BLANK)) == [];
    } else {
      var e, rest := payloads[0], ServerText(payloads[1..], encode) + tail;
      var row := PREFIX + encode(e);
      assert ServerText(payloads, encode) + tail == row + BLANK + rest;
      DeliversPayloads(payloads[1..], tail, encode, parse);
      FirstFrame(e, rest, encode, parse);
      assert payloads == [e] + payloads[1..];
    }
  }

  /** A whole frame at the front is delivered and the rest follows. */
  lemma FirstFrame<E(!new)>(e: E, rest: string, encode: E -> string, parse: string -> Option<E>)
    requires parse(encode(e)) == Some(e) && NoNewline(encode(e))
    ensures var after := Whole(rest, parse);
            Whole(PREFIX + encode(e) + BLANK + rest, parse) == Delivery([e] + after.events, after.threw)
  {
    var row := PREFIX + encode(e);
    SplitFrame(row, rest);
    ConsInit(row, Split(rest, BLANK), []);
    assert Init(Split(row + BLANK + rest, BLANK)) == [row] + Init(Split(rest, BLANK));
    OccursFirst(row, "\n");
    assert Split(row, "\n") == [row];
    assert row[|PREFIX|..] == encode(e);
    assert ([row] + Init(Split(rest, BLANK)))[1..] == Init(Split(rest, BLANK));
  }

  /** Cutting a stream that was interrupted anywhere inside a frame: exactly the payloads of
      the complete frames arrive. */
  lemma InterruptedFrame<E(!new)>(payloads: seq<E>, next: E, cut: nat, encode: E -> string, parse: string -> Option<E>)
    requires forall e :: parse(encode(e)) == Some(e) && NoNewline(encode(e))
    requires cut < |Frame(next, encode)|
    ensures Whole(ServerText(payloads, encode) + Frame(next, encode)[..cut], parse) == Delivery(payloads, false)
  {
    var row, tail := PREFIX + encode(next), Frame(next, encode)[..cut];
    OccursFirst(tail, BLANK);
    assert forall j :: 0 <= j < |tail| && j < |row| ==> tail[j] == row[j];
    DeliversPayloads(payloads, tail, encode, parse);
  }
}
