/** A vehicle and a ground station talking: whole uploads and downloads, each side reacting to what the other sent. */
module MissionDialogue {
  import opened FixedWidth
  import opened MissionProtocol

  predicate IsAsk(x: Message) { x.AskItem? }
  predicate IsCount(x: Message) { x.TellCount? }

  /** The messages of one kind, in order. */
  function Only(p: Message -> bool, s: seq<Message>): (r: seq<Message>)
    ensures forall x <- r :: p(x) && x in s
  {
    if s == [] then []
    else Only(p, s[..|s| - 1]) + (if p(s[|s| - 1]) then [s[|s| - 1]] else [])
  }

  lemma {:induction false} OnlyOfMore(p: Message -> bool, a: seq<Message>, b: seq<Message>)
    ensures Only(p, a + b) == Only(p, a) + Only(p, b)
    decreases |b|
  {
    if b == [] {
      assert a + b == a;
    } else {
      assert (a + b)[..|a + b| - 1] == a + b[..|b| - 1];
      OnlyOfMore(p, a, b[..|b| - 1]);
    }
  }

  lemma OnlyOfOne(p: Message -> bool, x: Message)
    ensures Only(p, [x]) == if p(x) then [x] else []
  {
    assert [x][..0] == [];
  }

  lemma OnlyOfAtMostOne(p: Message -> bool, s: seq<Message>)
    requires |s| <= 1
    ensures Only(p, s) == if s != [] && p(s[0]) then s else []
  {
    if s != [] { OnlyOfOne(p, s[0]); }
  }

  lemma OnlyOfThree(p: Message -> bool, a: seq<Message>, b: seq<Message>, c: seq<Message>)
    requires |a| <= 1 && |b| <= 1 && |c| <= 1
    ensures Only(p, a + b + c) ==
      (if a != [] && p(a[0]) then a else []) + (if b != [] && p(b[0]) then b else []) + (if c != [] && p(c[0]) then c else [])
  {
    hide Only;
    OnlyOfAtMostOne(p, a);
    OnlyOfAtMostOne(p, b);
    OnlyOfAtMostOne(p, c);
    OnlyOfMore(p, a, b);
    OnlyOfMore(p, a + b, c);
  }

  /** Of what one tick sends, the requests for items and the counts. */
  lemma TickSends(m: Mission)
    ensures Only(IsAsk, Outgoing(m)) == if m.askItem then [AskItem(m.index)] else []
    ensures Only(IsCount, Outgoing(m)) == if m.tellCount then [TellCount(|m.plan|)] else []
  {
    hide Only;
    var a := if m.askItem then [AskItem(m.index)] else [];
    var b := if m.tellCount then [TellCount(|m.plan|)] else [];
    var c := if m.tellItem then [TellItem(m.wanted, Waypoint(m.plan, m.wanted))] else [];
    OnlyOfThree(IsAsk, a, b, c);
    OnlyOfThree(IsCount, a, b, c);
  }

  /** Whatever a tick sends it does not send again. */
  lemma SentOnce(m: Mission)
    ensures Outgoing(OnTick(m)) == []
  {
  }

  // ---------------------------------------------------------------- an upload

  /** The ground station with the mission `items`: it answers the last request it heard with the item asked for. */
  function Answer(items: seq<Item>, heard: seq<Message>): seq<Event> {
    var asks := Only(IsAsk, heard);
    if asks == [] then []
    else
      var last := asks[|asks| - 1];
      assert last in asks && IsAsk(last);
      var k := last.seqNo;
      if k < |items| then [SendItem(k, items[k])] else []
  }

  /** A tick of the vehicle, and the ground station's answer to what it sent. */
  function Exchange(m: Mission, items: seq<Item>): Mission {
    var x := Step(m, Tick);
    var answer := Answer(items, Outgoing(m));
    if answer == [] then x else Step(x, answer[0])
  }

  function Exchanges(m: Mission, items: seq<Item>, n: nat): Mission {
    if n == 0 then m else Exchange(Exchanges(m, items, n - 1), items)
  }

  /** `n` items have been taken and the next one, if there is one, is to be asked for. */
  predicate Asking(m: Mission, items: seq<Item>, n: nat) {
    && n <= |items| && m.index == n && m.total == |items| && m.receiving == m.askItem == (n < |items|) && m.timeout == WAYPOINT_TIMEOUT
    && m.plan == Points(items[..n])
  }

  /** The requests for the items from 0 to `n` - 1. */
  function Asks(n: nat): (a: seq<Message>)
    ensures |a| == n
  {
    seq(n, k requires 0 <= k => AskItem(k))
  }

  predicate AllSupported(items: seq<Item>) {
    forall k :: 0 <= k < |items| ==> items[k].command in {NavTakeoff, NavLand, NavWaypoint, NavLoiter}
  }

  /** One exchange: the item asked for is the next, it is taken, and it is acknowledged if it is the last. */
  lemma OneExchange(m: Mission, items: seq<Item>, n: nat)
    requires n < |items| <= MAX_WAYPOINTS && AllSupported(items) && Asking(m, items, n)
    ensures Asking(Exchange(m, items), items, n + 1)
    ensures Only(IsAsk, Exchange(m, items).sent) == Only(IsAsk, m.sent) + [AskItem(n)]
    ensures Acks(Exchange(m, items).sent) == Acks(m.sent) + if n + 1 == |items| then 1 else 0
  {
    hide PointOf, Outgoing, Only, Acks, Points, OnTick;
    TickSends(m);
    var x := OnTick(m);
    TickKeeps(m);
    assert Answer(items, Outgoing(m)) == [SendItem(n, items[n])];
    assert Takes(x, n, items[n]);
    PointsMore(items, n);
    OnlyOfMore(IsAsk, m.sent, Outgoing(m));
    AcksOfMore(m.sent, Outgoing(m));
    TickSendsNoAck(m);
    if n + 1 == |items| {
      OnlyOfMore(IsAsk, x.sent, [TellAck]);
      OnlyOfOne(IsAsk, TellAck);
      AcksOfMore(x.sent, [TellAck]);
      OneAck();
    }
  }

  lemma TickKeeps(m: Mission)
    requires m.timeout > 0
    ensures var x := OnTick(m);
      && x.receiving == m.receiving && x.sending == m.sending && x.sent == m.sent + Outgoing(m) && x.plan == m.plan
      && x.index == m.index && x.total == m.total && !x.askItem && !x.tellCount && !x.tellItem && x.timeout == m.timeout - 1
  {
    hide Outgoing;
  }

  lemma PointsMore(items: seq<Item>, n: nat)
    requires n < |items|
    ensures Points(items[..n + 1]) == Points(items[..n]) + [PointOf(items[n])]
  {
    hide PointOf;
  }

  lemma {:induction false} ExchangesAsk(m: Mission, items: seq<Item>, n: nat)
    requires n <= |items| <= MAX_WAYPOINTS && AllSupported(items) && Asking(m, items, 0)
    ensures Asking(Exchanges(m, items, n), items, n)
    ensures Only(IsAsk, Exchanges(m, items, n).sent) == Only(IsAsk, m.sent) + Asks(n)
    ensures Acks(Exchanges(m, items, n).sent) == Acks(m.sent) + if n > 0 && n == |items| then 1 else 0
    decreases n
  {
    hide Exchange, Asking, Only, Acks, AllSupported;
    if n > 0 {
      ExchangesAsk(m, items, n - 1);
      OneExchange(Exchanges(m, items, n - 1), items, n - 1);
      assert Asks(n) == Asks(n - 1) + [AskItem(n - 1)];
    }
  }

  /** A vehicle told to clear its plan and to expect these items. */
  function Announced(m: Mission, items: seq<Item>): Mission {
    Step(Step(m, ClearAll), Count(|items|))
  }

  lemma AnnouncedAsks(m: Mission, items: seq<Item>)
    requires 0 < |items| <= MAX_WAYPOINTS
    ensures Asking(Announced(m, items), items, 0)
    ensures Announced(m, items).sent == m.sent + [TellAck, TellAck, TellAck]
  {
  }

  /**
   A ground station that answers what it is asked uploads its whole mission in as many exchanges as there are items:
   the vehicle asks for the items from 0 on, each once, stores them in order and sends one acknowledgement.
   */
  lemma MissionUploads(m: Mission, items: seq<Item>)
    requires 0 < |items| <= 20 && AllSupported(items)
    ensures var (x, r) := (Announced(m, items), Exchanges(Announced(m, items), items, |items|));
      && r.plan == Points(items) && !r.receiving && r.timeout > 0
      && Only(IsAsk, r.sent) == Only(IsAsk, x.sent) + Asks(|items|)
      && Acks(r.sent) == Acks(x.sent) + 1 && Acks(x.sent) == Acks(m.sent) + 3
  {
    hide Only, Acks, Points, Exchanges, AllSupported;
    var x := Announced(m, items);
    AnnouncedAsks(m, items);
    ExchangesAsk(x, items, |items|);
    assert items[..|items|] == items;
    AcksOfMore(m.sent, [TellAck, TellAck, TellAck]);
    ThreeAcks();
  }

  lemma ThreeAcks()
    ensures Acks([TellAck, TellAck, TellAck]) == 3
  {
    AcksOfMore([TellAck], [TellAck]);
    AcksOfMore([TellAck, TellAck], [TellAck]);
    OneAck();
    assert [TellAck] + [TellAck] == [TellAck, TellAck] && [TellAck, TellAck] + [TellAck] == [TellAck, TellAck, TellAck];
  }

  // ---------------------------------------------------------------- a download

  /** A request for the list: the next tick tells the number of waypoints, once, and the vehicle is ready to send them. */
  lemma TellsCount(m: Mission)
    ensures var x := Step(Step(m, RequestList), Tick);
      && Only(IsCount, x.sent) == Only(IsCount, m.sent) + [TellCount(|m.plan|)]
      && x.sending && !x.receiving && x.plan == m.plan && Outgoing(x) == []
  {
    hide Only, Outgoing;
    TickSends(OnRequestList(m));
    OnlyOfMore(IsCount, m.sent, Outgoing(OnRequestList(m)));
    SentOnce(OnRequestList(m));
  }

  /** While the vehicle is sending, a request for a waypoint is answered by the next tick, once, with that waypoint. */
  lemma TellsItem(m: Mission, k: nat)
    requires m.sending && Outgoing(m) == []
    ensures var x := Step(Step(m, Request(k)), Tick);
      && x.sent == m.sent + [TellItem(k, Waypoint(m.plan, k))]
      && x.sending && x.plan == m.plan && Outgoing(x) == []
  {
    assert !m.askItem && !m.tellCount && !m.tellItem;
  }

  /** The list requested, and then the first `n` waypoints, one after the other. */
  function Download(m: Mission, n: nat): Mission {
    if n == 0 then Step(Step(m, RequestList), Tick) else Step(Step(Download(m, n - 1), Request(n - 1)), Tick)
  }

  function Items(plan: seq<Point>, n: nat): (r: seq<Message>)
    ensures |r| == n
  {
    seq(n, k requires 0 <= k => TellItem(k, Waypoint(plan, k)))
  }

  lemma {:induction false} DownloadTells(m: Mission, n: nat)
    ensures var x := Download(m, n);
      && x.sent == Download(m, 0).sent + Items(m.plan, n)
      && x.sending && x.plan == m.plan && Outgoing(x) == []
    decreases n
  {
    hide Step, Outgoing, Waypoint;
    if n == 0 {
      TellsCount(m);
      assert Items(m.plan, 0) == [];
    } else {
      DownloadTells(m, n - 1);
      TellsItem(Download(m, n - 1), n - 1);
      assert Items(m.plan, n) == Items(m.plan, n - 1) + [TellItem(n - 1, Waypoint(m.plan, n - 1))];
    }
  }

  /** What was uploaded comes back: the number of items, and then every waypoint as it was sent, in order. */
  lemma DownloadsWhatWasUploaded(m: Mission, items: seq<Item>)
    requires 0 < |items| <= 20 && AllSupported(items)
    ensures var r := Exchanges(Announced(m, items), items, |items|);
      var x := Download(r, |items|);
      && Only(IsCount, Download(r, 0).sent) == Only(IsCount, r.sent) + [TellCount(|items|)]
      && |x.sent| == |Download(r, 0).sent| + |items|
      && forall k :: 0 <= k < |items| ==> x.sent[|Download(r, 0).sent| + k] == TellItem(k, Stored(PointOf(items[k])))
  {
    hide Only, Exchanges, Announced, AllSupported, Step, PointOf;
    MissionUploads(m, items);
    var r := Exchanges(Announced(m, items), items, |items|);
    TellsCount(r);
    DownloadTells(r, |items|);
  }

  /** An acknowledgement ends a download at once, and an upload with the next tick; the plan stays. */
  lemma AckEnds(m: Mission)
    ensures var a := Step(m, Ack);
      && !a.sending && a.plan == m.plan && a.sent == m.sent && a.receiving == m.receiving
      && var b := Step(a, Tick); !b.receiving && !b.sending && b.plan == m.plan
  {
    hide Outgoing;
  }

  /** An item with another command is ignored, and so is one that was not asked for: the vehicle goes on waiting. */
  lemma OthersIgnored(m: Mission, number: nat, i: Item)
    requires i.command == OtherCommand || number != m.index || !m.receiving
    ensures Step(m, SendItem(number, i)) == m
  {
  }

  /**
   A clear in the middle of an upload forgets the total with the plan: the vehicle takes and asks for further items,
   and however many it takes, it acknowledges none of them as the last.
   */
  lemma ClearedMidway(m: Mission, i: Item)
    requires m.receiving && m.index < 0xFFFF && AllSupported([i])
    ensures var c := Step(m, ClearAll);
      && c.receiving && c.plan == [] && c.total == 0
      && var r := Step(c, SendItem(m.index, i));
      && r.receiving && r.askItem && r.index == m.index + 1 && r.total == 0 && r.plan == [PointOf(i)] && r.sent == c.sent
  {
    hide PointOf;
    assert i.command == [i][0].command;
  }

  // ---------------------------------------------------------------- flags

  predicate Bit(flags: int, bit: int)
    requires bit > 0
  {
    flags / bit % 2 == 1
  }

  /** The flags of a stored waypoint tell frame and command: bit 8 a global frame, bit 0 a take-off, bit 7 a landing. */
  lemma FlagsTell(i: Item)
    ensures var f := PointOf(i).flags;
      && PointOf(i).at == i.at && 0 <= f < 512
      && (Bit(f, 256) <==> i.frame == Global)
      && (Bit(f, 128) <==> i.command == NavLand)
      && (Bit(f, 1) <==> i.command == NavTakeoff)
      && f == (if Bit(f, 256) then 256 else 0) + (if Bit(f, 128) then 128 else 0) + (if Bit(f, 1) then 1 else 0)
  {
  }
}
