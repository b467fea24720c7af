/** Who is sold masks, who is let in and what is answered, over every run of the mask shop and
    in plain words: no rule of the ledger is named. */
module MaskLaws {
  import opened MaskLedger
  import opened MaskServer
  import opened MaskRuns
  import opened MaskHistory

  // ---------------------------------------------------------------------------------
  // Sales
  // ---------------------------------------------------------------------------------

  /** The weekday is that of the number of sales. */
  lemma {:induction false} DayOfSales(who: Who, l: Ledger, script: seq<Request>)
    requires Sessions(l.sessions) && IsScript(script) && 1 <= l.day <= 7
    ensures After(who, l, script).day == (l.day - 1 + Sales(who, l, script)) % 7 + 1
  {
    hide Moves, Answers, IsRequest;
    if script != [] {
      var n := |script| - 1;
      DayOfSales(who, l, script[..n]);
      CounterStep(who, After(who, l, script[..n]), script[n].conn, script[n].command);
    }
  }

  lemma AdmittedInFull(l: Ledger, conn: nat)
    requires Sessions(l.sessions)
    ensures Admitted(l, conn) <==>
            && conn in l.sessions
            && (var last := l.sessions[conn][9] as int - 48;
                l.day == 7 || (l.day % 2 == 1 && last % 2 == 1) || (l.day % 2 == 0 && last % 2 == 0))
            && l.sessions[conn] !in l.buyList
  {
  }

  lemma SellsInFull(l: Ledger, conn: nat, command: Command)
    requires Sessions(l.sessions)
    ensures Sells(l, conn, command) <==>
            && command.Buy? && conn in l.sessions
            && (var last := l.sessions[conn][9] as int - 48;
                l.day == 7 || (l.day % 2 == 1 && last % 2 == 1) || (l.day % 2 == 0 && last % 2 == 0))
            && l.sessions[conn] !in l.buyList
            && 0 <= command.a && 0 <= command.b && 0 <= command.c && command.a + command.b + command.c <= 3
            && command.kind in l.stores && command.city in l.stores[command.kind]
            && var city := l.stores[command.kind][command.city];
               city.a >= command.a && city.b >= command.b && city.c >= command.c
  {
    hide Admitted;
    AdmittedInFull(l, conn);
  }

  /** A sale is what the rules ask for, and no type that begins with XXX where the server is
      asked. */
  lemma SoldIfSells(who: Who, l: Ledger, conn: nat, command: Command)
    requires Sessions(l.sessions) && IsRequest(conn, command)
    ensures Answers(who, l, conn, command).Sold? <==>
            Sells(l, conn, command) && !(who.ByServer? && |command.kind| >= 3 && command.kind[..3] == "XXX")
  {
    hide Admitted, Amounts;
  }

  /** Over every run a purchase is answered by a sale exactly when the connection is logged in; the
      day, that of the number of sales so far, is the seventh or as odd or even as the last digit
      of the id; the id was not listed since the last week's end; the three amounts are not
      negative and at most 3 together; and the city has left so many of each, of what it began
      with and has sold.  The server sells no type that begins with XXX. */
  lemma SoldExactlyWhen(who: Who, l: Ledger, script: seq<Request>, k: nat)
    requires Sessions(l.sessions) && IsScript(script) && k < |script| && 1 <= l.day <= 7
    ensures var conn, command, sessions := script[k].conn, script[k].command, After(who, l, script[..k]).sessions;
            ReplyAt(who, l, script, k).Sold? <==>
            && command.Buy? && conn in sessions
            && (var day, last := (l.day - 1 + Sales(who, l, script[..k])) % 7 + 1, sessions[conn][9] as int - 48;
                day == 7 || (day % 2 == 1 && last % 2 == 1) || (day % 2 == 0 && last % 2 == 0))
            && !ListedSince(who, l, script[..k], sessions[conn])
            && 0 <= command.a && 0 <= command.b && 0 <= command.c && command.a + command.b + command.c <= 3
            && command.kind in l.stores && command.city in l.stores[command.kind]
            && (var first, sold := l.stores[command.kind][command.city], SoldAt(who, l, script[..k], command.kind, command.city);
                && first.a - sold.a >= command.a && first.b - sold.b >= command.b && first.c - sold.c >= command.c)
            && !(who.ByServer? && |command.kind| >= 3 && command.kind[..3] == "XXX")
  {
    hide After, Answers, Sales, SoldAt, ListedSince, Sells;
    var s, conn, command := After(who, l, script[..k]), script[k].conn, script[k].command;
    DayOfSales(who, l, script[..k]);
    SoldIfSells(who, s, conn, command);
    SellsInFull(s, conn, command);
    if conn in s.sessions {
      BuyListIsListedSince(who, l, script[..k], s.sessions[conn]);
    }
    SameShopsAfter(who, l, script[..k]);
    if command.Buy? && command.kind in l.stores && command.city in l.stores[command.kind] {
      StockIsConserved(who, l, script[..k], command.kind, command.city);
    }
  }

  /** No shop opens or closes. */
  lemma {:induction false} SameShopsAfter(who: Who, l: Ledger, script: seq<Request>)
    requires Sessions(l.sessions) && IsScript(script)
    ensures SameShops(l, After(who, l, script))
  {
    if script != [] {
      var n := |script| - 1;
      SameShopsAfter(who, l, script[..n]);
      ShopsStep(who, After(who, l, script[..n]), script[n].conn, script[n].command);
      hide Moves, IsRequest;
    }
  }

  lemma ShopsStep(who: Who, l: Ledger, conn: nat, command: Command)
    requires Sessions(l.sessions) && IsRequest(conn, command)
    ensures SameShops(l, Moves(who, l, conn, command))
  {
    hide Admitted, Amounts, Covered;
  }

  // ---------------------------------------------------------------------------------
  // Other replies
  // ---------------------------------------------------------------------------------

  /** A number is valid when, with the letter's place in the official order counted from 10 as its
      two-digit code, the code's tens, nine times its units, the digits weighted 8 down to 1 and
      the last digit make a multiple of ten, and the last digit is not 0. */
  lemma ValidIdInFull(id: string, code: nat)
    requires IsId(id) && 10 <= code <= 35 && "ABCDEFGHJKLMNPQRSTUVXYWZIO"[code - 10] == id[0]
    ensures var d := seq(10, i requires 0 <= i < 10 => if i == 0 then 0 else id[i] as int - 48);
            ValidId(id) <==>
            && (code / 10 + code % 10 * 9 + d[1] * 8 + d[2] * 7 + d[3] * 6 + d[4] * 5 + d[5] * 4 + d[6] * 3
                + d[7] * 2 + d[8] + d[9]) % 10 == 0
            && d[9] != 0
  {
    WeightedUnrolled(id);
    LetterAt(id[0], code);
    hide LetterCode, Weighted;
  }

  lemma LetterAt(ch: char, code: nat)
    requires 'A' <= ch <= 'Z' && 10 <= code <= 35 && "ABCDEFGHJKLMNPQRSTUVXYWZIO"[code - 10] == ch
    ensures LetterCode(ch) == code
  {
    hide LetterCode;
    LettersDiffer(code - 10, LetterCode(ch) - 10);
  }

  lemma LettersDiffer(i: nat, j: nat)
    requires i < 26 && j < 26 && "ABCDEFGHJKLMNPQRSTUVXYWZIO"[i] == "ABCDEFGHJKLMNPQRSTUVXYWZIO"[j]
    ensures i == j
  {
  }

  /** The other replies, of server and checker alike. */
  lemma OtherReplies(who: Who, l: Ledger, conn: nat, command: Command)
    requires Sessions(l.sessions) && IsRequest(conn, command) && !command.Buy?
    ensures Answers(who, l, conn, command) ==
            match command
            case Login(id) => if conn !in l.sessions && ValidId(id) then LoginSuccessful else LoginFailed
            case Logout => if conn in l.sessions then LogoutSuccessful else LogoutFailed
            case Statics => Alcohol(l.alcohol)
            case _ => NotValid
  {
  }

  /** A bottle of ten is poured down to five before it is filled up again. */
  lemma BottleOfTen()
    ensures Level(10, 0) == 10 && Level(10, 4) == 6 && Level(10, 5) == 5 && Level(10, 6) == 10
  {
  }

  /** Stores are found by their type, and cities by their place in the store, from 1. */
  lemma SomeStores(a: City, b: City, c: City)
    ensures var stores := StoreMap([Store("A", [a, b]), Store("B", [c])]);
            && stores.Keys == {"A", "B"} && stores["A"].Keys == {1, 2} && stores["B"].Keys == {1}
            && stores["A"][1] == a && stores["A"][2] == b && stores["B"][1] == c
  {
    var data := [Store("A", [a, b]), Store("B", [c])];
    StoreMapAt(data, 0);
    StoreMapAt(data, 1);
    CityMapAt([a, b], 1);
    CityMapAt([a, b], 2);
    CityMapAt([c], 1);
    SmallIds();
    hide StoreMap, CityMap, IndexOf, Ids;
    assert Names(data) == {"A", "B"};
  }

  lemma SmallIds()
    ensures Ids(1) == {1} && Ids(2) == {1, 2}
  {
  }
}
