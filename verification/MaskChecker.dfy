/** The log checker (0851084_eos_hw3/checker.cpp): it replays a log over its own tables
    and counts the replies that differ from what it expects. */
module MaskChecker {
  import opened MaskLedger
  import opened MaskRuns
  import opened MaskServer

  /** The letter table of judge_correction, by distance from the character code. */
  function LetterNumber(ch: char): (n: int)
    requires 'A' <= ch <= 'Z'
    ensures n == LetterCode(ch)
  {
    var letter := ch as int;
    if 'A' <= ch <= 'H' || ch == 'W' then letter - 55
    else if ch == 'I' then letter - 39
    else if 'J' <= ch <= 'N' then letter - 56
    else if ch == 'O' then letter - 44
    else if 'P' <= ch <= 'V' || ch == 'Z' then letter - 57
    else letter - 58
  }

  /** judge_correction: the code letter, then loops over the digits. */
  method JudgeCorrection(msg: string) returns (ok: bool)
    requires IsId(msg)
    ensures ok <==> ValidId(msg)
  {
    hide LetterCode, LetterNumber, Digit;
    var num := new int[10];
    num[0] := LetterNumber(msg[0]);
    var i := 1;
    while i < |msg|
      invariant 1 <= i <= 10
      invariant num[0] == LetterCode(msg[0])
      invariant forall k | 1 <= k < i :: num[k] == Digit(msg[k])
    {
      num[i] := Digit(msg[i]);
      i := i + 1;
    }
    var y: nat := num[0] / 10 + num[0] % 10 * 9;
    var sum: nat := y;
    i := 1;
    while i < 9
      invariant 1 <= i <= 9
      invariant sum + Weighted(msg, i) == y + Weighted(msg, 1)
    {
      assert num[i] * (9 - i) == Digit(msg[i]) * (9 - i) >= 0;
      sum := sum + num[i] * (9 - i);
      i := i + 1;
    }
    CheckDigit(sum, Digit(msg[9]));
    var z := 10 - sum % 10;
    ok := z == num[9];
  }

  class Checker {
    var stores: map<string, map<nat, City>>
    var day: int
    var alcohol: int
    const oriAlcohol: int
    var buyList: set<string>
    const logStatic: array<bool>
    const myId: array<string>
    var starts: seq<nat>                // save_areas: the buyers' commands before their sales
    var ends: seq<nat>                  // and the sales

    ghost predicate Valid()
      reads this, logStatic, myId
    {
      && logStatic.Length == 100 && myId.Length == 100
      && 1 <= day <= 7
      && forall c | 0 <= c < 100 && logStatic[c] :: IsId(myId[c])
    }

    ghost function Open(): (sessions: map<nat, string>)
      requires Valid()
      reads this, logStatic, myId
      ensures Sessions(sessions)
    {
      map c: nat | c < 100 && logStatic[c] :: myId[c]
    }

    ghost function Abs(): (l: Ledger)
      requires Valid()
      reads this, logStatic, myId
      ensures Sessions(l.sessions)
    {
      Ledger(stores, day, alcohol, oriAlcohol, buyList, Open())
    }

    constructor (stores: map<string, map<nat, City>>, day: int, alcohol: int)
      requires 1 <= day <= 7
      ensures Valid() && fresh(logStatic) && fresh(myId)
      ensures Abs() == Ledger(stores, day, alcohol, alcohol, {}, map[])
      ensures starts == ends == []
    {
      this.stores, this.day, this.alcohol, oriAlcohol, buyList := stores, day, alcohol, alcohol, {};
      starts, ends := [], [];
      logStatic := new bool[100](_ => false);
      myId := new string[100](_ => "");
    }

    method CheckLogin(conn: nat, id: string) returns (expected: Reply)
      requires Valid() && IsRequest(conn, Login(id))
      modifies this`stores, this`day, this`alcohol, this`buyList, logStatic, myId
      ensures Valid()
      ensures expected == Expected(old(Abs()), conn, Login(id))
      ensures Abs() == Next(old(Abs()), conn, Login(id))
    {
      var ok := JudgeCorrection(id);
      if ok && !logStatic[conn] {
        myId[conn] := id;
        logStatic[conn] := true;
        assert Open() == old(Open())[conn := id];
        expected := LoginSuccessful;
      } else {
        expected := LoginFailed;
      }
    }

    method CheckLogout(conn: nat) returns (expected: Reply)
      requires Valid() && IsRequest(conn, Logout)
      modifies this`stores, this`day, this`alcohol, this`buyList, logStatic, myId
      ensures Valid()
      ensures expected == Expected(old(Abs()), conn, Logout)
      ensures Abs() == Next(old(Abs()), conn, Logout)
    {
      if !logStatic[conn] {
        expected := LogoutFailed;
      } else {
        logStatic[conn] := false;
        buyList := buyList + {myId[conn]};
        myId[conn] := "";
        assert Open() == old(Open()) - {conn};
        expected := LogoutSuccessful;
      }
    }

    /** The tables after a sale. */
    method RecordSale(conn: nat, command: Command)
      requires Valid() && IsRequest(conn, command) && Sells(Abs(), conn, command)
      modifies this`stores, this`day, this`alcohol, this`buyList, logStatic
      ensures Valid()
      ensures Abs() == Next(old(Abs()), conn, command)
    {
      hide Today, Amounts, IsId;
      alcohol := alcohol - 1;
      if alcohol < 5 {
        alcohol := oriAlcohol;
      }
      var cities := stores[command.kind];
      var city := cities[command.city];
      city := city.(a := city.a - command.a, b := city.b - command.b, c := city.c - command.c);
      cities := cities[command.city := city];
      stores := stores[command.kind := cities];
      CloseRow(conn);
    }

    /** Lists the id, closes the session and moves to the next day. */
    method CloseRow(conn: nat)
      requires Valid() && conn < 100 && logStatic[conn]
      modifies this`buyList, this`day, logStatic
      ensures Valid() && Open() == old(Open()) - {conn}
      ensures day == if old(day) + 1 > 7 then 1 else old(day) + 1
      ensures buyList == if old(day) + 1 > 7 then {} else old(buyList) + {old(Open())[conn]}
    {
      buyList := buyList + {myId[conn]};
      logStatic[conn] := false;
      day := day + 1;
      if day > 7 {
        day := 1;
        buyList := {};
      }
    }

    method CheckBuy(conn: nat, command: Command) returns (expected: Reply)
      requires Valid() && IsRequest(conn, command) && command.Buy?
      modifies this`stores, this`day, this`alcohol, this`buyList, logStatic, myId
      ensures Valid()
      ensures expected == Expected(old(Abs()), conn, command)
      ensures Abs() == Next(old(Abs()), conn, command)
    {
      expected := BuyFailed;
      var id := myId[conn];
      if logStatic[conn]
         && (day == 7 || (day % 2 == 1 && Digit(id[9]) % 2 == 1) || (day % 2 == 0 && Digit(id[9]) % 2 == 0))
         && id !in buyList
      {
        if command.a + command.b + command.c <= 3 && command.a >= 0 && command.b >= 0 && command.c >= 0 {
          if command.kind in stores {
            var cities := stores[command.kind];
            if command.city in cities {
              var city := cities[command.city];
              if city.a >= command.a && city.b >= command.b && city.c >= command.c {
                RecordSale(conn, command);
                expected := Sold;
              }
            }
          }
        }
      }
    }

    /** The reply expected to one command, and the new tables. */
    method Expect(conn: nat, command: Command) returns (expected: Reply)
      requires Valid() && IsRequest(conn, command)
      modifies this`stores, this`day, this`alcohol, this`buyList, logStatic, myId
      ensures Valid()
      ensures expected == Expected(old(Abs()), conn, command)
      ensures Abs() == Next(old(Abs()), conn, command)
    {
      hide Next, Expected;
      StaysPut(Abs(), conn);
      match command {
        case Login(id) => expected := CheckLogin(conn, id);
        case Logout => expected := CheckLogout(conn);
        case Buy(_, _, _, _, _) => expected := CheckBuy(conn, command);
        case Statics => expected := Alcohol(alcohol);
        case Invalid => expected := NotValid;
      }
    }

    // -------------------------------------------------------------------------------
    // Purchases under way
    // -------------------------------------------------------------------------------

    /** The areas recorded so far are those of sales, and the first n steps' sales have theirs. */
    ghost predicate Recorded(l: Ledger, script: seq<Request>, n: nat)
      requires Sessions(l.sessions) && IsScript(script) && n <= |script|
      reads this`starts, this`ends
    {
      && |starts| == |ends|
      && (forall k | 0 <= k < |ends| :: Area(script, starts[k], ends[k]) && SaleAt(l, script, ends[k]))
      && (forall s | 0 <= s < n :: SaleAt(l, script, s) ==> s in ends)
    }

    /** Notes a sale and the buyer's command before it. */
    method Record(log: seq<Entry>, s: nat)
      requires s < |log| && exists j | 0 <= j < s :: log[j].request.conn == log[s].request.conn
      modifies this`starts, this`ends
      ensures exists p :: Area(Requests(log), p, s) && starts == old(starts) + [p]
      ensures ends == old(ends) + [s]
    {
      ends := ends + [s];
      var j: nat := s;
      while j > 0
        invariant j <= s && starts == old(starts)
        invariant forall i | j <= i < s :: log[i].request.conn != log[s].request.conn
      {
        j := j - 1;
        if log[j].request.conn == log[s].request.conn {
          assert Area(Requests(log), j, s);
          starts := starts + [j];
          break;
        }
      }
    }

    /** check_flag: no recorded purchase is under way. */
    method CheckFlag(index: nat) returns (ok: bool)
      requires |starts| == |ends|
      ensures ok <==> forall k | 0 <= k < |starts| :: !(starts[k] < index < ends[k])
    {
      var i := 0;
      while i < |starts|
        invariant 0 <= i <= |starts|
        invariant forall k | 0 <= k < i :: !(starts[k] < index < ends[k])
      {
        if index > starts[i] && index < ends[i] {
          return false;
        }
        i := i + 1;
      }
      return true;
    }

    /** Once all sales are recorded, a purchase is under way exactly where a report is excused. */
    lemma UnderWayIsExcused(l: Ledger, script: seq<Request>, i: nat)
      requires Sessions(l.sessions) && IsScript(script) && Recorded(l, script, |script|)
      ensures (exists k | 0 <= k < |starts| :: starts[k] < i < ends[k]) <==> Excused(l, script, i)
    {
      hide SaleAt, IsRequest;
      if Excused(l, script, i) {
        var s :| i < s < |script| && SaleAt(l, script, s) && forall j | i <= j < s :: script[j].conn != script[s].conn;
        var k :| 0 <= k < |ends| && ends[k] == s;
        assert Area(script, starts[k], ends[k]);
      }
    }

    // -------------------------------------------------------------------------------
    // The two passes
    // -------------------------------------------------------------------------------

    /** The tables after the first i entries, and the areas of the first n. */
    ghost predicate Replayed(l: Ledger, log: seq<Entry>, i: nat, n: nat)
      requires Sessions(l.sessions) && IsScript(Requests(log)) && i <= |log| && n <= |log|
      reads this, logStatic, myId
    {
      && Valid()
      && Abs() == After(ByChecker, l, Requests(log)[..i])
      && Recorded(l, Requests(log), n)
    }

    /** One entry: the expected reply, the new tables, and a sale's area. */
    method Replay(ghost l: Ledger, log: seq<Entry>, i: nat, ghost n: nat) returns (expected: Reply)
      requires Sessions(l.sessions) && IsScript(Requests(log)) && l.sessions == map[]
      requires i < |log| && i <= n <= |log| && Replayed(l, log, i, n)
      modifies this, logStatic, myId
      ensures Replayed(l, log, i + 1, if n == i then n + 1 else n)
      ensures expected == ReplyAt(ByChecker, l, Requests(log), i)
    {
      hide After, Next, Expected, Area, IsRequest;
      AfterStep(ByChecker, l, Requests(log), i);
      expected := Expect(log[i].request.conn, log[i].request.command);
      if expected.Sold? {
        ghost var j := SaleAfterLogin(l, Requests(log), i);
        assert log[j].request.conn == log[i].request.conn;
        Record(log, i);
      }
    }

    /** check_1: the tables, and the areas of all sales. */
    method Check1(ghost l: Ledger, log: seq<Entry>)
      requires Sessions(l.sessions) && IsScript(Requests(log)) && l.sessions == map[]
      requires Valid() && Abs() == l && starts == ends == []
      modifies this, logStatic, myId
      ensures Replayed(l, log, |log|, |log|)
    {
      NothingDone(l);
      assert Requests(log)[..0] == [];
      assert Replayed(l, log, 0, 0);
      hide Replayed, IsRequest;
      var i := 0;
      while i < |log|
        invariant 0 <= i <= |log|
        invariant Replayed(l, log, i, i)
      {
        var expected := Replay(l, log, i, i);
        i := i + 1;
      }
    }

    /** check_2: the tables again, and the count of replies objected to. */
    method Check2(ghost l: Ledger, log: seq<Entry>) returns (count: nat)
      requires Sessions(l.sessions) && IsScript(Requests(log)) && l.sessions == map[]
      requires Replayed(l, log, 0, |log|)
      modifies this, logStatic, myId
      ensures Replayed(l, log, |log|, |log|)
      ensures count == Wrongs(l, log, |log|)
    {
      hide Replayed, IsRequest, Wrong;
      count := 0;
      var i := 0;
      while i < |log|
        invariant 0 <= i <= |log|
        invariant Replayed(l, log, i, |log|)
        invariant count == Wrongs(l, log, i)
      {
        var wrong := Compare(l, log, i);
        if wrong {
          count := count + 1;
        }
        i := i + 1;
      }
    }

    /** One entry of the second pass. */
    method Compare(ghost l: Ledger, log: seq<Entry>, i: nat) returns (wrong: bool)
      requires Sessions(l.sessions) && IsScript(Requests(log)) && l.sessions == map[]
      requires i < |log| && Replayed(l, log, i, |log|)
      modifies this, logStatic, myId
      ensures Replayed(l, log, i + 1, |log|)
      ensures wrong == Wrong(l, log, i)
    {
      hide ReplyAt, IsRequest, After, Excused;
      var expected := Replay(l, log, i, |log|);
      wrong := log[i].reply != expected;
      if wrong && log[i].request.command.Statics? {
        UnderWayIsExcused(l, Requests(log), i);
        wrong := CheckFlag(i);
      }
    }

    /** clear, and the inventory as it was loaded. */
    method Restore(stores: map<string, map<nat, City>>, day: int, alcohol: int, buyList: set<string>)
      requires Valid() && 1 <= day <= 7
      modifies this`stores, this`day, this`alcohol, this`buyList, logStatic, myId
      ensures Valid() && Abs() == Ledger(stores, day, alcohol, oriAlcohol, buyList, map[])
    {
      forall c | 0 <= c < 100 {
        logStatic[c] := false;
      }
      forall c | 0 <= c < 100 {
        myId[c] := "";
      }
      this.stores, this.day, this.alcohol, this.buyList := stores, day, alcohol, buyList;
    }

    /** The two passes over a log, from the inventory just loaded. */
    method Check(log: seq<Entry>) returns (count: nat)
      requires Valid() && IsScript(Requests(log))
      requires Abs().sessions == map[] && starts == ends == []
      modifies this, logStatic, myId
      ensures Valid()
      ensures count == Wrongs(old(Abs()), log, |log|)
      ensures Abs() == After(ByChecker, old(Abs()), Requests(log))
    {
      hide After, Wrongs, IsRequest;
      ghost var l := Abs();
      var temp := (stores, day, alcohol, buyList);
      Check1(l, log);
      Restore(temp.0, temp.1, temp.2, temp.3);
      NothingDone(l);
      assert Requests(log)[..0] == [] && Requests(log)[..|log|] == Requests(log);
      count := Check2(l, log);
    }
  }

  lemma StaysPut(l: Ledger, conn: nat)
    requires Sessions(l.sessions) && conn < 100
    ensures Expected(l, conn, Statics) == Alcohol(l.alcohol) && Next(l, conn, Statics) == l
    ensures Expected(l, conn, Invalid) == NotValid && Next(l, conn, Invalid) == l
  {
  }
}
