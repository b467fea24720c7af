/** What holds over every run of the mask shop: the bought list, the stock, the day and
    the alcohol, and the checker's verdict on the server's log. */
module MaskHistory {
  import opened MaskLedger
  import opened MaskServer
  import opened MaskRuns
  import opened MaskChecker
  import opened Arithmetic

  /** Step `k` of the run puts `id` on the bought list. */
  ghost predicate Lists(who: Who, l: Ledger, script: seq<Request>, k: nat, id: string)
    requires Sessions(l.sessions) && IsScript(script) && k < |script|
  {
    && (ReplyAt(who, l, script, k).LogoutSuccessful? || ReplyAt(who, l, script, k).Sold?)
    && script[k].conn in After(who, l, script[..k]).sessions
    && After(who, l, script[..k]).sessions[script[k].conn] == id
  }

  /** Step `k` is the week's last sale, which empties the list. */
  ghost predicate EndsWeek(who: Who, l: Ledger, script: seq<Request>, k: nat)
    requires Sessions(l.sessions) && IsScript(script) && k < |script|
  {
    ReplyAt(who, l, script, k).Sold? && After(who, l, script[..k]).day == 7
  }

  /** No week ends from step `from` on. */
  ghost predicate Quiet(who: Who, l: Ledger, script: seq<Request>, from: nat)
    requires Sessions(l.sessions) && IsScript(script)
  {
    forall j | from <= j < |script| :: !EndsWeek(who, l, script, j)
  }

  /** Listed at some step with no week ended since, or from before the run. */
  ghost predicate ListedSince(who: Who, l: Ledger, script: seq<Request>, id: string)
    requires Sessions(l.sessions) && IsScript(script)
  {
    || (exists k | 0 <= k < |script| :: Lists(who, l, script, k, id) && Quiet(who, l, script, k))
    || (id in l.buyList && Quiet(who, l, script, 0))
  }

  /** Earlier steps do not depend on later ones. */
  lemma PrefixSteps(who: Who, l: Ledger, script: seq<Request>, n: nat)
    requires Sessions(l.sessions) && IsScript(script) && n <= |script|
    ensures forall k | 0 <= k < n :: ReplyAt(who, l, script[..n], k) == ReplyAt(who, l, script, k)
    ensures forall k | 0 <= k < n :: EndsWeek(who, l, script[..n], k) == EndsWeek(who, l, script, k)
    ensures forall k, id | 0 <= k < n :: Lists(who, l, script[..n], k, id) == Lists(who, l, script, k, id)
  {
    hide After, Answers, IsRequest;
    assert forall k | 0 <= k < n :: script[..n][..k] == script[..k];
  }

  lemma QuietStep(who: Who, l: Ledger, script: seq<Request>, from: nat)
    requires Sessions(l.sessions) && IsScript(script) && from < |script|
    ensures var n := |script| - 1;
            Quiet(who, l, script, from) <==> !EndsWeek(who, l, script, n) && Quiet(who, l, script[..n], from)
  {
    var n := |script| - 1;
    PrefixSteps(who, l, script, n);
    hide After, Answers, IsRequest, EndsWeek, Lists;
    if !EndsWeek(who, l, script, n) && Quiet(who, l, script[..n], from) {
      forall j | from <= j < |script|
        ensures !EndsWeek(who, l, script, j)
      {
        assert j < n ==> EndsWeek(who, l, script[..n], j) == EndsWeek(who, l, script, j);
      }
    }
  }

  lemma ListedSinceStep(who: Who, l: Ledger, script: seq<Request>, id: string)
    requires Sessions(l.sessions) && IsScript(script) && script != []
    ensures var n := |script| - 1;
            ListedSince(who, l, script, id) <==>
            !EndsWeek(who, l, script, n) && (Lists(who, l, script, n, id) || ListedSince(who, l, script[..n], id))
  {
    var n := |script| - 1;
    PrefixSteps(who, l, script, n);
    assert Quiet(who, l, script[..n], n);
    hide After, Answers, ReplyAt, Lists, EndsWeek, Quiet;
    forall k | 0 <= k < |script|
      ensures Quiet(who, l, script, k) <==> !EndsWeek(who, l, script, n) && Quiet(who, l, script[..n], k)
    {
      QuietStep(who, l, script, k);
    }
  }

  lemma BuyListStep(who: Who, l: Ledger, conn: nat, command: Command, id: string)
    requires Sessions(l.sessions) && IsRequest(conn, command) && 1 <= l.day <= 7
    ensures var reply := Answers(who, l, conn, command);
            id in Moves(who, l, conn, command).buyList <==>
            && !(reply.Sold? && l.day == 7)
            && (id in l.buyList ||
                ((reply.LogoutSuccessful? || reply.Sold?) && conn in l.sessions && l.sessions[conn] == id))
  {
  }

  /** The week stays a week. */
  lemma {:induction false} DayInWeek(who: Who, l: Ledger, script: seq<Request>)
    requires Sessions(l.sessions) && IsScript(script) && 1 <= l.day <= 7
    ensures 1 <= After(who, l, script).day <= 7
  {
    if script != [] {
      DayInWeek(who, l, script[..|script| - 1]);
    }
  }

  /** The bought list is exactly the ids that bought or logged out since the last reset. */
  lemma {:induction false} BuyListIsListedSince(who: Who, l: Ledger, script: seq<Request>, id: string)
    requires Sessions(l.sessions) && IsScript(script) && 1 <= l.day <= 7
    ensures id in After(who, l, script).buyList <==> ListedSince(who, l, script, id)
  {
    if script == [] {
      assert After(who, l, script) == l;
    } else {
      var n := |script| - 1;
      BuyListIsListedSince(who, l, script[..n], id);
      DayInWeek(who, l, script[..n]);
      ListedSinceStep(who, l, script, id);
      BuyListStep(who, After(who, l, script[..n]), script[n].conn, script[n].command, id);
      hide ListedSince, Moves, Answers, IsRequest;
    }
  }

  /** No id buys twice without a week ending in between, on any connections. */
  lemma NoSecondPurchase(who: Who, l: Ledger, script: seq<Request>, i: nat, j: nat, id: string)
    requires Sessions(l.sessions) && IsScript(script) && 1 <= l.day <= 7
    requires i < j < |script|
    requires Lists(who, l, script, i, id)
    requires ReplyAt(who, l, script, j).Sold? && Lists(who, l, script, j, id)
    ensures exists k | i <= k < j :: EndsWeek(who, l, script, k)
  {
    BuyListIsListedSince(who, l, script[..j], id);
    PrefixSteps(who, l, script, j);
    if forall k | i <= k < j :: !EndsWeek(who, l, script, k) {
      assert Lists(who, l, script[..j], i, id) && Quiet(who, l, script[..j], i);
      assert ListedSince(who, l, script[..j], id);
      SoldMeansAdmitted(who, After(who, l, script[..j]), script[j].conn, script[j].command);
      assert false;
    }
  }

  lemma SoldMeansAdmitted(who: Who, l: Ledger, conn: nat, command: Command)
    requires Sessions(l.sessions) && IsRequest(conn, command) && Answers(who, l, conn, command).Sold?
    ensures conn in l.sessions && l.sessions[conn] !in l.buyList
  {
  }

  // ---------------------------------------------------------------------------------
  // Stock, day and alcohol
  // ---------------------------------------------------------------------------------

  datatype Masks = Masks(a: int, b: int, c: int)

  /** Masks sold in a city over the run. */
  ghost function SoldAt(who: Who, l: Ledger, script: seq<Request>, kind: string, city: nat): (m: Masks)
    requires Sessions(l.sessions) && IsScript(script)
  {
    if script == [] then Masks(0, 0, 0)
    else
      var n := |script| - 1;
      var m := SoldAt(who, l, script[..n], kind, city);
      var command := script[n].command;
      if ReplyAt(who, l, script, n).Sold? && command.Buy? && command.kind == kind && command.city == city
      then Masks(m.a + command.a, m.b + command.b, m.c + command.c)
      else m
  }

  ghost function Sales(who: Who, l: Ledger, script: seq<Request>): nat
    requires Sessions(l.sessions) && IsScript(script)
  {
    if script == [] then 0
    else
      var n := |script| - 1;
      Sales(who, l, script[..n]) + if ReplyAt(who, l, script, n).Sold? then 1 else 0
  }

  ghost predicate NoDebt(l: Ledger) {
    forall kind, city | kind in l.stores && city in l.stores[kind] ::
      var c := l.stores[kind][city]; c.a >= 0 && c.b >= 0 && c.c >= 0
  }

  ghost predicate SameShops(l: Ledger, l': Ledger) {
    && l'.stores.Keys == l.stores.Keys
    && forall kind | kind in l.stores :: l'.stores[kind].Keys == l.stores[kind].Keys
  }

  lemma StockStep(who: Who, l: Ledger, conn: nat, command: Command, kind: string, city: nat)
    requires Sessions(l.sessions) && IsRequest(conn, command)
    requires kind in l.stores && city in l.stores[kind]
    ensures var l' := Moves(who, l, conn, command);
            && SameShops(l, l') && (NoDebt(l) ==> NoDebt(l'))
            && var now, before := l'.stores[kind][city], l.stores[kind][city];
               now.name == before.name &&
               if Answers(who, l, conn, command).Sold? && command.Buy? && command.kind == kind && command.city == city
               then now.a == before.a - command.a && now.b == before.b - command.b && now.c == before.c - command.c
               else now == before
  {
  }

  /** Stock is conserved: what a city began with is what it has plus what it sold, and
      it never owes masks. */
  lemma {:induction false} StockIsConserved(who: Who, l: Ledger, script: seq<Request>, kind: string, city: nat)
    requires Sessions(l.sessions) && IsScript(script)
    requires kind in l.stores && city in l.stores[kind]
    ensures SameShops(l, After(who, l, script)) && (NoDebt(l) ==> NoDebt(After(who, l, script)))
    ensures var now, first, sold := After(who, l, script).stores[kind][city], l.stores[kind][city], SoldAt(who, l, script, kind, city);
            now.a + sold.a == first.a && now.b + sold.b == first.b && now.c + sold.c == first.c
  {
    if script != [] {
      var n := |script| - 1;
      StockIsConserved(who, l, script[..n], kind, city);
      StockStep(who, After(who, l, script[..n]), script[n].conn, script[n].command, kind, city);
      hide Moves, Answers, IsRequest, NoDebt, IsId;
    }
  }

  lemma DayStep(d: int, k: nat)
    requires 1 <= d <= 7
    ensures var now := Weekday(d, k);
            (if now + 1 > 7 then 1 else now + 1) == Weekday(d, k + 1)
  {
  }

  /** Alcohol left after `k` sales: a capacity below 5 is refilled at every sale. */
  function Level(capacity: int, k: nat): int {
    if capacity < 5 then capacity else capacity - k % (capacity - 4)
  }

  /** The weekday after `k` sales. */
  function Weekday(day: int, k: nat): int {
    (day - 1 + k) % 7 + 1
  }

  /** One more pour moves the alcohol one step round its cycle of capacity - 4 levels. */
  lemma PourStep(k: nat, capacity: int)
    ensures Pour(Level(capacity, k), capacity) == Level(capacity, k + 1)
  {
    if capacity < 5 {
      return;
    }
    var n := capacity - 4;
    var q, r := k / n, k % n;
    assert k == q * n + r;
    if r == n - 1 {
      assert (q + 1) * n == q * n + n;
      DivisionIs(k + 1, n, q + 1, 0);
    } else {
      DivisionIs(k + 1, n, q, r + 1);
    }
  }

  lemma CounterStep(who: Who, l: Ledger, conn: nat, command: Command)
    requires Sessions(l.sessions) && IsRequest(conn, command)
    ensures var l' := Moves(who, l, conn, command);
            if Answers(who, l, conn, command).Sold? then
              l'.day == (if l.day + 1 > 7 then 1 else l.day + 1) && l'.alcohol == Pour(l.alcohol, l.capacity)
            else
              l'.day == l.day && l'.alcohol == l.alcohol
  {
  }

  /** Who is logged in, and as whom, after a reply. */
  lemma SessionStep(who: Who, l: Ledger, conn: nat, command: Command, c: nat)
    requires Sessions(l.sessions) && IsRequest(conn, command)
    ensures var reply, l' := Answers(who, l, conn, command), Moves(who, l, conn, command);
            if c == conn && reply.LoginSuccessful? then
              c !in l.sessions && command.Login? && c in l'.sessions && l'.sessions[c] == command.id
            else if c == conn && (reply.LogoutSuccessful? || reply.Sold?) then
              c in l.sessions && c !in l'.sessions
            else
              (c in l'.sessions <==> c in l.sessions) && (c in l.sessions ==> l'.sessions[c] == l.sessions[c])
  {
  }

  /** Day and alcohol as so many sales leave them. */
  ghost predicate Counted(l: Ledger, day: int, k: nat) {
    l.day == Weekday(day, k) && l.alcohol == Level(l.capacity, k)
  }

  lemma CountedStep(who: Who, l: Ledger, conn: nat, command: Command, day: int, k: nat)
    requires Sessions(l.sessions) && IsRequest(conn, command) && 1 <= day <= 7 && Counted(l, day, k)
    ensures Counted(Moves(who, l, conn, command), day, k + if Answers(who, l, conn, command).Sold? then 1 else 0)
  {
    CounterStep(who, l, conn, command);
    DayStep(day, k);
    PourStep(k, l.capacity);
    hide Moves, Answers, IsRequest, Pour, Level, Weekday;
  }

  lemma {:induction false} CountedAfter(who: Who, l: Ledger, script: seq<Request>)
    requires Sessions(l.sessions) && IsScript(script)
    requires 1 <= l.day <= 7 && Counted(l, l.day, 0)
    ensures Counted(After(who, l, script), l.day, Sales(who, l, script))
  {
    hide Moves, Answers, IsRequest, Counted;
    if script != [] {
      var n := |script| - 1;
      CountedAfter(who, l, script[..n]);
      CountedStep(who, After(who, l, script[..n]), script[n].conn, script[n].command, l.day, Sales(who, l, script[..n]));
    }
  }

  /** Day and alcohol are functions of the number of sales alone. */
  lemma DayAndAlcohol(who: Who, l: Ledger, script: seq<Request>)
    requires Sessions(l.sessions) && IsScript(script)
    requires 1 <= l.day <= 7 && l.alcohol == l.capacity
    ensures var k := Sales(who, l, script);
            && After(who, l, script).day == Weekday(l.day, k)
            && After(who, l, script).alcohol == Level(l.capacity, k)
  {
    hide After, Sales;
    CountedAfter(who, l, script);
  }

  // ---------------------------------------------------------------------------------
  // Server and checker together
  // ---------------------------------------------------------------------------------

  /** A server and a checker that start from the same inventory: whatever interleaving the
      server works through, the checker objects to nothing in its log exactly when every
      request was covered, and then ends with the server's own stock, day, alcohol, list and
      sessions. */
  method ServeThenCheck(data: seq<Store>, day: int, alcohol: int, script: seq<Request>)
    returns (server: Server, checker: Checker, log: seq<Entry>, count: nat)
    requires IsInventory(data) && 1 <= day <= 7 && IsScript(script)
    requires Fits(Ledger(StoreMap(data), day, alcohol, alcohol, {}, map[]), 0, script)
    ensures var l := Ledger(StoreMap(data), day, alcohol, alcohol, {}, map[]);
            && Requests(log) == script && Correct(ByServer, l, log)
            && count == Wrongs(l, log, |log|)
            && (count == 0 <==> CoveredRun(l, script))
            && server.Valid() && server.Abs() == After(ByServer, l, script)
            && checker.Valid() && checker.Abs() == After(ByChecker, l, script)
            && (CoveredRun(l, script) ==> Correct(ByChecker, l, log) && server.Abs() == checker.Abs())
  {
    hide CoveredRun, Correct, Wrongs, After, Fits;
    server := new Server(data, day, alcohol);
    checker := new Checker(StoreMap(data), day, alcohol);
    ghost var l := server.Abs();
    log := Serve(server, script);
    NoWrongExactlyWhenCovered(l, log);
    count := checker.Check(log);
  }

  // ---------------------------------------------------------------------------------
  // The laws of the server's own state
  // ---------------------------------------------------------------------------------

  /** What a city has and what it has sold is what it began with. */
  ghost predicate Conserved(l: Ledger, l': Ledger, sold: Masks, kind: string, city: nat)
    requires kind in l.stores && city in l.stores[kind]
  {
    && kind in l'.stores && city in l'.stores[kind]
    && var first, now := l.stores[kind][city], l'.stores[kind][city];
       now.a + sold.a == first.a && now.b + sold.b == first.b && now.c + sold.c == first.c
  }

  /** Whatever a server that opens with an inventory is asked, covered or not: its day and
      alcohol are those of the number of sales, its bought list is the ids listed since the
      last week's end, and its stores conserve their masks. */
  method ServeByTheLaws(data: seq<Store>, day: int, alcohol: int, script: seq<Request>)
    returns (server: Server, log: seq<Entry>)
    requires IsInventory(data) && 1 <= day <= 7 && IsScript(script)
    requires Fits(Ledger(StoreMap(data), day, alcohol, alcohol, {}, map[]), 0, script)
    ensures server.Valid() && Requests(log) == script
    ensures var l := Ledger(StoreMap(data), day, alcohol, alcohol, {}, map[]);
            && Correct(ByServer, l, log)
            && server.day == Weekday(day, Sales(ByServer, l, script))
            && server.alcohol == Level(alcohol, Sales(ByServer, l, script))
            && (forall id :: id in Listed(server.Rows()) <==> ListedSince(ByServer, l, script, id))
            && forall kind, city | kind in l.stores && city in l.stores[kind] ::
                 Conserved(l, server.Abs(), SoldAt(ByServer, l, script, kind, city), kind, city)
  {
    hide CoveredRun, Correct, After, Fits, ListedSince, StoreMap;
    server := new Server(data, day, alcohol);
    ghost var l := server.Abs();
    log := Serve(server, script);
    DayAndAlcohol(ByServer, l, script);
    forall id
      ensures id in Listed(server.Rows()) <==> ListedSince(ByServer, l, script, id)
    {
      BuyListIsListedSince(ByServer, l, script, id);
    }
    forall kind, city | kind in l.stores && city in l.stores[kind]
      ensures Conserved(l, server.Abs(), SoldAt(ByServer, l, script, kind, city), kind, city)
    {
      StockIsConserved(ByServer, l, script, kind, city);
    }
  }

  // ---------------------------------------------------------------------------------
  // Requests that are not covered
  // ---------------------------------------------------------------------------------

  const VISITOR := "A123456789"

  /** One store of a type, on the day when all may buy, with the visitor logged in. */
  function Shop(kind: string): Ledger {
    Ledger(StoreMap([Store(kind, [City("Hsinchu", 5, 5, 5)])]), 7, 10, 10, {}, map[0 := VISITOR])
  }

  lemma VisitorIsValid()
    ensures IsId(VISITOR) && ValidId(VISITOR) && Digit(VISITOR[9]) == 9
  {
    WeightedUnrolled(VISITOR);
    assert VISITOR[0] == 'A' && VISITOR[9] == '9';
  }

  /** A store type that begins with XXX: the server turns the visitor away, and the checker
      expects a sale. */
  lemma XXXIsTurnedAway()
    ensures var l, order := Shop("XXXA"), Buy("XXXA", 1, 1, 0, 0);
            && ValidId(VISITOR) && Sessions(l.sessions) && IsRequest(0, order)
            && Answers(ByServer, l, 0, order) == BuyFailed
            && Answers(ByChecker, l, 0, order) == Sold
  {
    hide IsId, ValidId, StoreMap;
    VisitorIsValid();
    StoreMapAt([Store("XXXA", [City("Hsinchu", 5, 5, 5)])], 0);
  }

  /** A store type the shop does not have: the server says nothing, and the checker expects
      a refusal. */
  lemma UnknownTypeIsNotAnswered()
    ensures var l, order := Shop("A"), Buy("B", 1, 1, 0, 0);
            && ValidId(VISITOR) && Sessions(l.sessions) && IsRequest(0, order)
            && Answers(ByServer, l, 0, order) == Nothing
            && Answers(ByChecker, l, 0, order) == BuyFailed
  {
    hide IsId, ValidId;
    VisitorIsValid();
  }
}
