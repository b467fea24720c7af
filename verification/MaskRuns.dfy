/** Runs of the mask shop: any interleaving of requests over any number of connections. */
module MaskRuns {
  import opened MaskLedger
  import opened MaskServer

  datatype Request = Request(conn: nat, command: Command)

  datatype Entry = Entry(request: Request, reply: Reply)

  predicate IsScript(script: seq<Request>) {
    forall k | 0 <= k < |script| :: IsRequest(script[k].conn, script[k].command)
  }

  /** Who works through the requests: the server leaves a request that is not covered
      without effect, the checker follows the ledger. */
  datatype Who = ByServer | ByChecker

  function Moves(who: Who, l: Ledger, conn: nat, command: Command): (l': Ledger)
    requires Sessions(l.sessions) && IsRequest(conn, command)
    ensures Sessions(l'.sessions) && l'.capacity == l.capacity
  {
    if who.ByServer? && !Covered(l, conn, command) then l else Next(l, conn, command)
  }

  function Answers(who: Who, l: Ledger, conn: nat, command: Command): Reply
    requires Sessions(l.sessions) && IsRequest(conn, command)
  {
    if who.ByServer? && !Covered(l, conn, command) then if StartsWithXXX(command.kind) then BuyFailed else Nothing
    else Expected(l, conn, command)
  }

  /** The ledger after a run. */
  function After(who: Who, l: Ledger, script: seq<Request>): (l': Ledger)
    requires Sessions(l.sessions) && IsScript(script)
    ensures Sessions(l'.sessions) && l'.capacity == l.capacity
  {
    if script == [] then l
    else
      var last := script[|script| - 1];
      Moves(who, After(who, l, script[..|script| - 1]), last.conn, last.command)
  }

  /** The k-th reply. */
  function ReplyAt(who: Who, l: Ledger, script: seq<Request>, k: nat): Reply
    requires Sessions(l.sessions) && IsScript(script) && k < |script|
  {
    Answers(who, After(who, l, script[..k]), script[k].conn, script[k].command)
  }

  lemma AfterStep(who: Who, l: Ledger, script: seq<Request>, k: nat)
    requires Sessions(l.sessions) && IsScript(script) && k < |script|
    ensures After(who, l, script[..k + 1]) == Moves(who, After(who, l, script[..k]), script[k].conn, script[k].command)
  {
    assert script[..k + 1][..k] == script[..k];
  }

  // ---------------------------------------------------------------------------------
  // The server's log
  // ---------------------------------------------------------------------------------

  predicate CoveredRun(l: Ledger, script: seq<Request>)
    requires Sessions(l.sessions) && IsScript(script)
  {
    forall k | 0 <= k < |script| :: Covered(After(ByChecker, l, script[..k]), script[k].conn, script[k].command)
  }

  /** Entries on the server's bought list after a run that began with `n`. */
  function ListAfter(l: Ledger, n: nat, script: seq<Request>): nat
    requires Sessions(l.sessions) && IsScript(script)
  {
    if script == [] then n
    else
      var k := |script| - 1;
      ListLength(ListAfter(l, n, script[..k]), After(ByServer, l, script[..k]).day, ReplyAt(ByServer, l, script, k))
  }

  lemma ListAfterStep(l: Ledger, n: nat, script: seq<Request>, k: nat)
    requires Sessions(l.sessions) && IsScript(script) && k < |script|
    ensures ListAfter(l, n, script[..k + 1]) ==
            ListLength(ListAfter(l, n, script[..k]), After(ByServer, l, script[..k]).day, ReplyAt(ByServer, l, script, k))
  {
    hide After, Answers;
    assert script[..k + 1][..k] == script[..k];
  }

  /** The bought list never fills up. */
  predicate Fits(l: Ledger, n: nat, script: seq<Request>)
    requires Sessions(l.sessions) && IsScript(script)
  {
    forall k | 0 <= k < |script| :: ListAfter(l, n, script[..k]) < BUY_ID_NUM
  }

  function Requests(log: seq<Entry>): (script: seq<Request>)
    ensures |script| == |log| && forall k | 0 <= k < |log| :: script[k] == log[k].request
  {
    seq(|log|, k requires 0 <= k < |log| => log[k].request)
  }

  /** Every reply in the log is the one given, or expected, at that point. */
  ghost predicate Correct(who: Who, l: Ledger, log: seq<Entry>)
    requires Sessions(l.sessions) && IsScript(Requests(log))
  {
    forall k | 0 <= k < |log| :: log[k].reply == ReplyAt(who, l, Requests(log), k)
  }

  /** A sale step and the last step of the buyer's connection before it. */
  ghost predicate Area(script: seq<Request>, start: nat, end: nat) {
    && start < end < |script| && script[start].conn == script[end].conn
    && forall j | start < j < end :: script[j].conn != script[end].conn
  }

  /** The checker expects a sale at step `s`. */
  ghost predicate SaleAt(l: Ledger, script: seq<Request>, s: nat)
    requires Sessions(l.sessions) && IsScript(script) && s < |script|
  {
    ReplyAt(ByChecker, l, script, s).Sold?
  }

  /** Step `i` lies between a buyer's previous command and its sale. */
  ghost predicate Excused(l: Ledger, script: seq<Request>, i: nat)
    requires Sessions(l.sessions) && IsScript(script)
  {
    exists s | i < s < |script| :: SaleAt(l, script, s) && forall j | i <= j < s :: script[j].conn != script[s].conn
  }

  /** The checker objects to entry `i`: its reply is not the expected one, and it is no report
      of the alcohol while a purchase is under way. */
  ghost predicate Wrong(l: Ledger, log: seq<Entry>, i: nat)
    requires Sessions(l.sessions) && IsScript(Requests(log)) && i < |log|
  {
    && log[i].reply != ReplyAt(ByChecker, l, Requests(log), i)
    && !(log[i].request.command.Statics? && Excused(l, Requests(log), i))
  }

  /** How many of the first `n` entries it objects to. */
  ghost function Wrongs(l: Ledger, log: seq<Entry>, n: nat): (count: nat)
    requires Sessions(l.sessions) && IsScript(Requests(log)) && n <= |log|
    ensures count <= n
  {
    if n == 0 then 0 else Wrongs(l, log, n - 1) + if Wrong(l, log, n - 1) then 1 else 0
  }

  lemma {:induction false} NoWrongs(l: Ledger, log: seq<Entry>, n: nat)
    requires Sessions(l.sessions) && IsScript(Requests(log)) && n <= |log|
    ensures Wrongs(l, log, n) == 0 <==> forall i | 0 <= i < n :: !Wrong(l, log, i)
  {
    hide Wrong;
    if n > 0 {
      NoWrongs(l, log, n - 1);
    }
  }

  /** A connection that is logged in has been heard of. */
  lemma {:induction false} HeardOf(l: Ledger, script: seq<Request>, s: nat, conn: nat) returns (j: nat)
    requires Sessions(l.sessions) && IsScript(script) && s <= |script|
    requires conn in After(ByChecker, l, script[..s]).sessions && conn !in l.sessions
    ensures j < s && script[j].conn == conn
  {
    hide After, Answers, IsRequest;
    NothingDone(l);
    assert script[..0] == [];
    j := 0;
    if s > 0 {
      AfterStep(ByChecker, l, script, s - 1);
      if script[s - 1].conn == conn {
        j := s - 1;
      } else {
        j := HeardOf(l, script, s - 1, conn);
      }
    }
  }

  /** A sale is to a connection that has been heard of before. */
  lemma SaleAfterLogin(l: Ledger, script: seq<Request>, s: nat) returns (j: nat)
    requires Sessions(l.sessions) && IsScript(script) && s < |script| && l.sessions == map[]
    requires SaleAt(l, script, s)
    ensures j < s && script[j].conn == script[s].conn
  {
    hide After, IsRequest;
    j := HeardOf(l, script, s, script[s].conn);
  }

  /** On a request that is not covered server and checker answer differently. */
  lemma AgreeExactlyWhenCovered(l: Ledger, conn: nat, command: Command)
    requires Sessions(l.sessions) && IsRequest(conn, command)
    ensures Answers(ByServer, l, conn, command) == Answers(ByChecker, l, conn, command) <==> Covered(l, conn, command)
    ensures Covered(l, conn, command) ==> Moves(ByServer, l, conn, command) == Moves(ByChecker, l, conn, command)
  {
  }

  lemma {:induction false} SameWhileCovered(l: Ledger, script: seq<Request>, k: nat)
    requires Sessions(l.sessions) && IsScript(script) && k <= |script|
    requires forall j | 0 <= j < k :: Covered(After(ByChecker, l, script[..j]), script[j].conn, script[j].command)
    ensures After(ByServer, l, script[..k]) == After(ByChecker, l, script[..k])
  {
    hide After, Moves, Covered, IsRequest;
    if k == 0 {
      NothingDone(l);
      assert script[..0] == [];
    } else {
      SameWhileCovered(l, script, k - 1);
      AfterStep(ByServer, l, script, k - 1);
      AfterStep(ByChecker, l, script, k - 1);
      AgreeExactlyWhenCovered(After(ByChecker, l, script[..k - 1]), script[k - 1].conn, script[k - 1].command);
    }
  }

  lemma NothingDone(l: Ledger)
    requires Sessions(l.sessions)
    ensures forall who :: After(who, l, []) == l
  {
  }

  /** If the checker does not object to the server's replies, its first k requests are
      covered. */
  lemma {:induction false} CoveredWhileRight(l: Ledger, log: seq<Entry>, k: nat)
    requires Sessions(l.sessions) && IsScript(Requests(log)) && k <= |log|
    requires Correct(ByServer, l, log) && forall i | 0 <= i < |log| :: !Wrong(l, log, i)
    ensures var script := Requests(log);
            forall j | 0 <= j < k :: Covered(After(ByChecker, l, script[..j]), script[j].conn, script[j].command)
  {
    hide After, Answers, IsRequest, Excused, Sells, Admitted, Amounts;
    if k > 0 {
      var script := Requests(log);
      CoveredWhileRight(l, log, k - 1);
      SameWhileCovered(l, script, k - 1);
      assert !Wrong(l, log, k - 1) && log[k - 1].reply == ReplyAt(ByServer, l, script, k - 1);
      AgreeExactlyWhenCovered(After(ByChecker, l, script[..k - 1]), script[k - 1].conn, script[k - 1].command);
    }
  }

  /** The checker objects to nothing in a log of the server's exactly when its requests were
      covered. */
  lemma NoWrongExactlyWhenCovered(l: Ledger, log: seq<Entry>)
    requires Sessions(l.sessions) && IsScript(Requests(log)) && Correct(ByServer, l, log)
    ensures Wrongs(l, log, |log|) == 0 <==> CoveredRun(l, Requests(log))
    ensures CoveredRun(l, Requests(log)) ==>
              Correct(ByChecker, l, log) && After(ByServer, l, Requests(log)) == After(ByChecker, l, Requests(log))
  {
    hide After, Answers, Covered, IsRequest, Moves, Excused;
    var script := Requests(log);
    NoWrongs(l, log, |log|);
    assert script[..|script|] == script;
    if Wrongs(l, log, |log|) == 0 {
      CoveredWhileRight(l, log, |log|);
    }
    if CoveredRun(l, script) {
      SameWhileCovered(l, script, |script|);
      forall k | 0 <= k < |log|
        ensures log[k].reply == ReplyAt(ByChecker, l, script, k)
      {
        SameWhileCovered(l, script, k);
        AgreeExactlyWhenCovered(After(ByChecker, l, script[..k]), script[k].conn, script[k].command);
      }
    }
  }

  /** The server has served the first `i` requests. */
  ghost predicate Served(server: Server, l: Ledger, n: nat, script: seq<Request>, i: nat)
    requires Sessions(l.sessions) && IsScript(script) && i <= |script|
    reads server, server.boughtIds
  {
    && server.Valid()
    && server.Abs() == After(ByServer, l, script[..i])
    && server.boughtNum == ListAfter(l, n, script[..i])
  }

  /** One request of the run. */
  method ServeNext(server: Server, ghost l: Ledger, ghost n: nat, script: seq<Request>, i: nat) returns (reply: Reply)
    requires Sessions(l.sessions) && IsScript(script) && i < |script|
    requires Fits(l, n, script)
    requires Served(server, l, n, script, i)
    modifies server, server.boughtIds
    ensures Served(server, l, n, script, i + 1)
    ensures reply == ReplyAt(ByServer, l, script, i)
  {
    hide After, ListAfter, Next, Expected, Covered, ListLength, IsRequest;
    AfterStep(ByServer, l, script, i);
    ListAfterStep(l, n, script, i);
    reply := server.Handle(script[i].conn, script[i].command);
  }

  /** The server works through any interleaving and writes its log. */
  method Serve(server: Server, script: seq<Request>) returns (log: seq<Entry>)
    requires server.Valid() && IsScript(script)
    requires Fits(server.Abs(), server.boughtNum, script)
    modifies server, server.boughtIds
    ensures server.Valid() && server.Abs() == After(ByServer, old(server.Abs()), script)
    ensures Requests(log) == script
    ensures Correct(ByServer, old(server.Abs()), log)
  {
    assert script[..0] == [] && script[..|script|] == script;
    log := ServeAll(server, server.Abs(), server.boughtNum, script);
  }

  method ServeAll(server: Server, ghost l: Ledger, ghost n: nat, script: seq<Request>) returns (log: seq<Entry>)
    requires Sessions(l.sessions) && IsScript(script)
    requires Fits(l, n, script)
    requires Served(server, l, n, script, 0)
    modifies server, server.boughtIds
    ensures Served(server, l, n, script, |script|)
    ensures Requests(log) == script && Correct(ByServer, l, log)
  {
    hide Served, Fits, Covered, ReplyAt, IsRequest;
    log := [];
    var i := 0;
    while i < |script|
      invariant 0 <= i == |log| <= |script|
      invariant Served(server, l, n, script, i)
      invariant forall k | 0 <= k < i :: log[k] == Entry(script[k], ReplyAt(ByServer, l, script, k))
    {
      var reply := ServeNext(server, l, n, script, i);
      log := log + [Entry(script[i], reply)];
      i := i + 1;
    }
    assert Requests(log) == script;
  }
}
