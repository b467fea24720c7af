/** The mask shop server (0851084_eos_hw3/hw3.cpp): handlers over arrays and counters,
    each run whole under one mutex, proved to do what the ledger says. */
module MaskServer {
  import opened MaskLedger

  const BUY_ID_NUM: nat := 100000

  /** What a connection's thread keeps on its own stack. */
  datatype Session = Session(loggedIn: bool, id: string)

  predicate StartsWithXXX(kind: string) {
    |kind| >= 3 && kind[..3] == "XXX"
  }

  /** The first store of a type, or |data|. */
  function IndexOf(data: seq<Store>, kind: string): (i: nat)
    ensures i <= |data|
    ensures i < |data| ==> data[i].name == kind
    ensures forall j | 0 <= j < i :: data[j].name != kind
  {
    if data == [] || data[0].name == kind then 0 else 1 + IndexOf(data[1..], kind)
  }

  function Names(data: seq<Store>): set<string> {
    set store | store in data :: store.name
  }

  function Ids(n: nat): (ids: set<nat>)
    ensures forall k: nat :: k in ids <==> 1 <= k <= n
  {
    if n == 0 then {} else Ids(n - 1) + {n}
  }

  function CityMap(cities: seq<City>): (m: map<nat, City>)
    ensures m.Keys == Ids(|cities|)
  {
    map k | k in Ids(|cities|) :: cities[k - 1]
  }

  /** The inventory as the checker loads it: by type, then by city id. */
  function StoreMap(data: seq<Store>): (m: map<string, map<nat, City>>)
    ensures m.Keys == Names(data)
  {
    map name | name in Names(data) :: (var i := IndexOf(data, name); if i < |data| then CityMap(data[i].cities) else map[])
  }

  lemma CityMapAt(cities: seq<City>, k: nat)
    requires 1 <= k
    ensures k in CityMap(cities) <==> k <= |cities|
    ensures k <= |cities| ==> CityMap(cities)[k] == cities[k - 1]
  {
  }

  lemma StoreMapAt(data: seq<Store>, i: nat)
    requires IsInventory(data) && i < |data|
    ensures data[i].name in StoreMap(data) && StoreMap(data)[data[i].name] == CityMap(data[i].cities)
  {
  }

  lemma NotInStoreMap(data: seq<Store>, kind: string)
    requires forall i | 0 <= i < |data| :: data[i].name != kind
    ensures kind !in StoreMap(data)
  {
  }

  function Replaced(data: seq<Store>, i: nat, command: Command): seq<Store>
    requires i < |data| && command.Buy? && 1 <= command.city <= |data[i].cities|
  {
    var cities := data[i].cities;
    data[i := data[i].(cities := cities[command.city - 1 := Take(cities[command.city - 1], command)])]
  }

  lemma ReplacedIndex(data: seq<Store>, i: nat, command: Command, name: string)
    requires IsInventory(data) && i < |data|
    requires command.Buy? && 1 <= command.city <= |data[i].cities|
    ensures var data' := Replaced(data, i, command);
            IsInventory(data') && IndexOf(data', name) == IndexOf(data, name) && Names(data') == Names(data)
  {
    var data' := Replaced(data, i, command);
    assert forall k | 0 <= k < |data| :: data'[k].name == data[k].name;
    forall n
      ensures n in Names(data) <==> n in Names(data')
    {
      assert forall k | 0 <= k < |data| :: data[k] in data && data'[k] in data';
    }
  }

  lemma ReplacedCities(data: seq<Store>, i: nat, command: Command)
    requires i < |data| && command.Buy? && 1 <= command.city <= |data[i].cities|
    ensures CityMap(Replaced(data, i, command)[i].cities) == TakeFrom(CityMap(data[i].cities), command)
  {
  }

  /** Buying in place is buying in the map. */
  lemma StoreMapBuy(data: seq<Store>, i: nat, command: Command)
    requires IsInventory(data) && i < |data| && command.Buy? && data[i].name == command.kind
    requires 1 <= command.city <= |data[i].cities|
    ensures var data' := Replaced(data, i, command);
            && IsInventory(data')
            && command.kind in StoreMap(data) && command.city in StoreMap(data)[command.kind]
            && StoreMap(data') == StoreMap(data)[command.kind := TakeFrom(StoreMap(data)[command.kind], command)]
  {
    var data' := Replaced(data, i, command);
    StoreMapAt(data, i);
    ReplacedCities(data, i, command);
    ReplacedIndex(data, i, command, command.kind);
    StoreMapAt(data', i);
    hide Replaced, TakeFrom, CityMap, Names, IndexOf, StoreMap;
    forall name | name in Names(data) && name != command.kind
      ensures name in StoreMap(data') && StoreMap(data')[name] == StoreMap(data)[name]
    {
      SameElsewhere(data, i, command, name);
    }
  }

  lemma SameElsewhere(data: seq<Store>, i: nat, command: Command, name: string)
    requires IsInventory(data) && i < |data| && command.Buy? && data[i].name == command.kind
    requires 1 <= command.city <= |data[i].cities|
    requires name in Names(data) && name != command.kind
    ensures var data' := Replaced(data, i, command);
            name in StoreMap(data') && StoreMap(data')[name] == StoreMap(data)[name]
  {
    ReplacedIndex(data, i, command, name);
    var store :| store in data && store.name == name;
    var k := IndexOf(data, name);
    assert k < |data| && k != i;
    hide CityMap, IndexOf, Names, Take;
  }

  /** How many of the first `n` places agree. */
  function Agreement(x: string, y: string, n: nat): (count: nat)
    requires n <= |x| && n <= |y|
    ensures count <= n
    ensures count == n <==> x[..n] == y[..n]
  {
    if n == 0 then 0
    else
      assert x[..n] == x[..n - 1] + [x[n - 1]] && y[..n] == y[..n - 1] + [y[n - 1]];
      Agreement(x, y, n - 1) + if x[n - 1] == y[n - 1] then 1 else 0
  }

  lemma WeightedUnrolled(id: string)
    requires IsId(id)
    ensures Weighted(id, 1) ==
            Digit(id[1]) * 8 + Digit(id[2]) * 7 + Digit(id[3]) * 6 + Digit(id[4]) * 5
            + Digit(id[5]) * 4 + Digit(id[6]) * 3 + Digit(id[7]) * 2 + Digit(id[8])
  {
  }

  /** The chain of letter ranges in check_ID. */
  function LetterChain(ch: char): (y: nat)
    requires 'A' <= ch <= 'Z'
    ensures y == LetterCode(ch)
  {
    if ch == 'I' then 34
    else if ch == 'O' then 35
    else if ch == 'W' then 32
    else if ch == 'Z' then 33
    else if 'A' <= ch <= 'H' then (ch - 'A') as nat + 10
    else if 'J' <= ch <= 'N' then (ch - 'J') as nat + 18
    else if 'P' <= ch <= 'V' then (ch - 'P') as nat + 23
    else if ch == 'X' then 30
    else 31
  }

  /** Ten minus the last digit of a sum is the check digit exactly when the two add up to
      a multiple of ten; the check digit 0 is never reached. */
  lemma CheckDigit(sum: nat, d: nat)
    requires d < 10
    ensures 10 - sum % 10 == d <==> (sum + d) % 10 == 0 && d != 0
  {
  }

  function CheckId(id: string): (ok: bool)
    requires IsId(id)
    ensures ok == ValidId(id)
  {
    var y := LetterChain(id[0]);
    var sum := y / 10 + y % 10 * 9
               + (Digit(id[1]) * 8 + Digit(id[2]) * 7 + Digit(id[3]) * 6 + Digit(id[4]) * 5
                  + Digit(id[5]) * 4 + Digit(id[6]) * 3 + Digit(id[7]) * 2 + Digit(id[8]));
    WeightedUnrolled(id);
    CheckDigit(sum, Digit(id[9]));
    10 - sum % 10 == Digit(id[9])
  }

  function Listed(rows: seq<string>): set<string> {
    set row | row in rows
  }

  lemma ListedOneMore(rows: seq<string>, id: string)
    ensures Listed(rows + [id]) == Listed(rows) + {id}
  {
  }

  class Server {
    var data: seq<Store>
    var day: int
    var alcohol: int
    const capacity: int
    const boughtIds: array2<char>
    var boughtNum: nat
    var threads: map<nat, Session>

    ghost predicate Valid()
      reads this
    {
      && IsInventory(data)
      && boughtIds.Length0 == BUY_ID_NUM && boughtIds.Length1 == 10
      && boughtNum <= BUY_ID_NUM
      && 1 <= day <= 7
      && forall c | c in threads && threads[c].loggedIn :: IsId(threads[c].id)
    }

    function Row(i: nat): (row: string)
      requires i < boughtIds.Length0 && boughtIds.Length1 == 10
      reads boughtIds
      ensures |row| == 10 && forall j | 0 <= j < 10 :: row[j] == boughtIds[i, j]
    {
      seq(10, j requires 0 <= j < 10 reads boughtIds => boughtIds[i, j])
    }

    ghost function FirstRows(n: nat): (rows: seq<string>)
      requires n <= boughtIds.Length0 && boughtIds.Length1 == 10
      reads boughtIds
      ensures |rows| == n && forall i | 0 <= i < n :: rows[i] == Row(i)
    {
      seq(n, i requires 0 <= i < n reads boughtIds => Row(i))
    }

    /** The live part of the bought list. */
    ghost function Rows(): (rows: seq<string>)
      requires Valid()
      reads this, boughtIds
    {
      FirstRows(boughtNum)
    }

    ghost function LoggedIn(): (sessions: map<nat, string>)
      requires Valid()
      reads this
      ensures Sessions(sessions)
    {
      map c | c in threads && threads[c].loggedIn :: threads[c].id
    }

    /** The ledger the server's state stands for. */
    ghost function Abs(): (l: Ledger)
      requires Valid()
      reads this, boughtIds
      ensures Sessions(l.sessions)
    {
      Ledger(StoreMap(data), day, alcohol, capacity, Listed(Rows()), LoggedIn())
    }

    constructor (data: seq<Store>, day: int, alcohol: int)
      requires IsInventory(data) && 1 <= day <= 7
      ensures Valid() && fresh(boughtIds)
      ensures Abs() == Ledger(StoreMap(data), day, alcohol, alcohol, {}, map[])
      ensures boughtNum == 0
    {
      this.data, this.day, this.alcohol, capacity := data, day, alcohol, alcohol;
      boughtIds := new char[BUY_ID_NUM, 10]((_, _) => ' ');
      boughtNum, threads := 0, map[];
    }

    /** A connection seen for the first time belongs to a fresh thread. */
    function Thread(conn: nat): (t: Session)
      requires Valid()
      reads this
      ensures t.loggedIn ==> IsId(t.id)
    {
      if conn in threads then threads[conn] else Session(false, "")
    }

    lemma ThreadIsSession(conn: nat)
      requires Valid()
      ensures Thread(conn).loggedIn <==> conn in Abs().sessions
      ensures Thread(conn).loggedIn ==> Abs().sessions[conn] == Thread(conn).id
    {
    }

    /** Appends an id to the bought list, character by character. */
    method Remember(id: string)
      requires Valid() && |id| == 10 && boughtNum < BUY_ID_NUM
      modifies this`boughtNum, boughtIds
      ensures Valid() && boughtNum == old(boughtNum) + 1
      ensures Rows() == old(Rows()) + [id]
    {
      var j := 0;
      while j < 10
        invariant 0 <= j <= 10 && boughtNum == old(boughtNum)
        invariant forall k | 0 <= k < j :: boughtIds[boughtNum, k] == id[k]
        invariant forall i, k | 0 <= i < boughtNum && 0 <= k < 10 :: boughtIds[i, k] == old(boughtIds[i, k])
      {
        boughtIds[boughtNum, j] := id[j];
        j := j + 1;
      }
      assert Row(boughtNum) == id;
      forall i | 0 <= i < boughtNum
        ensures Row(i) == old(Row(i))
      {
      }
      boughtNum := boughtNum + 1;
      assert FirstRows(boughtNum) == old(FirstRows(boughtNum)) + [id];
    }

    /** Blanks the whole list for the new week. */
    method ResetList()
      requires Valid()
      modifies this`boughtNum, boughtIds
      ensures Valid() && boughtNum == 0 && Rows() == []
    {
      var i := 0;
      while i < BUY_ID_NUM
        invariant 0 <= i <= BUY_ID_NUM
      {
        var j := 0;
        while j < 10
          invariant 0 <= j <= 10
        {
          boughtIds[i, j] := ' ';
          j := j + 1;
        }
        i := i + 1;
      }
      boughtNum := 0;
    }

    /** May this id buy today?  Day parity first, then a search of the list that counts
        equal characters. */
    method CheckDayOfWeek(id: string) returns (ok: bool)
      requires Valid() && IsId(id)
      ensures ok <==> Today(day, id) && id !in Rows()
    {
      if day != 7 && day % 2 != Digit(id[9]) % 2 {
        return false;
      }
      var i := 0;
      while i < boughtNum
        invariant 0 <= i <= boughtNum
        invariant forall k | 0 <= k < i :: Rows()[k] != id
      {
        var counter, j := 0, 0;
        while j < 10
          invariant 0 <= j <= 10
          invariant counter == Agreement(id, Row(i), j)
        {
          if id[j] == boughtIds[i, j] {
            counter := counter + 1;
          }
          j := j + 1;
        }
        assert id[..10] == id && Row(i)[..10] == Row(i);
        if counter >= 10 {
          assert Rows()[i] == id;
          return false;
        }
        i := i + 1;
      }
      return true;
    }

    method LoginHandler(conn: nat, id: string) returns (reply: Reply)
      requires Valid() && IsRequest(conn, Login(id))
      modifies this`threads
      ensures Valid()
      ensures reply == Expected(old(Abs()), conn, Login(id))
      ensures Abs() == Next(old(Abs()), conn, Login(id))
    {
      if !Thread(conn).loggedIn {
        if CheckId(id) {
          threads := threads[conn := Session(true, id)];
          assert LoggedIn() == old(LoggedIn())[conn := id];
          assert Rows() == old(Rows());
          reply := LoginSuccessful;
        } else {
          reply := LoginFailed;
        }
      } else {
        reply := LoginFailed;
      }
    }

    method LogoutHandler(conn: nat) returns (reply: Reply)
      requires Valid() && IsRequest(conn, Logout)
      requires boughtNum < BUY_ID_NUM
      modifies this`threads, this`boughtNum, boughtIds
      ensures Valid()
      ensures reply == Expected(old(Abs()), conn, Logout)
      ensures Abs() == Next(old(Abs()), conn, Logout)
      ensures boughtNum == old(boughtNum) + if reply.LogoutSuccessful? then 1 else 0
    {
      var t := Thread(conn);
      if !t.loggedIn {
        reply := LogoutFailed;
      } else {
        threads := threads[conn := Session(false, t.id)];
        Remember(t.id);
        assert LoggedIn() == old(LoggedIn()) - {conn};
        ListedOneMore(old(Rows()), t.id);
        reply := LogoutSuccessful;
      }
    }

    method CloseSession(conn: nat)
      requires Valid() && Thread(conn).loggedIn
      modifies this`threads
      ensures Valid() && LoggedIn() == old(LoggedIn()) - {conn}
    {
      threads := threads[conn := Session(false, threads[conn].id)];
    }

    method NextDay()
      requires Valid()
      modifies this`day, this`boughtNum, boughtIds
      ensures Valid()
      ensures day == if old(day) + 1 > 7 then 1 else old(day) + 1
      ensures Rows() == if old(day) + 1 > 7 then [] else old(Rows())
      ensures boughtNum == if old(day) == 7 then 0 else old(boughtNum)
    {
      day := day + 1;
      if day == 8 {
        day := 1;
        ResetList();
      }
    }

    /** Stock and alcohol after a sale. */
    method Deduct(i: nat, command: Command)
      requires Valid() && command.Buy?
      requires i < |data| && data[i].name == command.kind && 1 <= command.city <= |data[i].cities|
      modifies this`data, this`alcohol
      ensures Valid()
      ensures command.kind in StoreMap(old(data)) && command.city in StoreMap(old(data))[command.kind]
      ensures StoreMap(data) ==
              StoreMap(old(data))[command.kind := TakeFrom(StoreMap(old(data))[command.kind], command)]
      ensures alcohol == Pour(old(alcohol), capacity)
    {
      StoreMapBuy(data, i, command);
      hide StoreMap, CityMap, TakeFrom, Names, IndexOf;
      var cities := data[i].cities;
      var city := cities[command.city - 1];
      city := city.(a := city.a - command.a, b := city.b - command.b, c := city.c - command.c);
      ghost var replaced := Replaced(data, i, command);
      data := data[i := data[i].(cities := cities[command.city - 1 := city])];
      assert data == replaced;
      hide Replaced, IsInventory;
      alcohol := alcohol - 1;
      if alcohol < 5 {
        alcohol := capacity;
      }
    }

    /** The sale itself: stock, alcohol, bought list, logout and the next day. */
    method Sell(conn: nat, i: nat, command: Command)
      requires Valid() && IsRequest(conn, command) && Sells(Abs(), conn, command)
      requires i < |data| && data[i].name == command.kind && command.city <= |data[i].cities|
      requires boughtNum < BUY_ID_NUM
      modifies this`data, this`day, this`alcohol, this`threads, this`boughtNum, boughtIds
      ensures Valid()
      ensures Abs() == Next(old(Abs()), conn, command)
      ensures boughtNum == if old(day) == 7 then 0 else old(boughtNum) + 1
    {
      ThreadIsSession(conn);
      hide StoreMap, TakeFrom, Admitted, InStock, Amounts, LoggedIn, FirstRows, IsId, IsInventory, Pour;
      var id := Thread(conn).id;
      Deduct(i, command);
      Remember(id);
      ListedOneMore(old(Rows()), id);
      CloseSession(conn);
      NextDay();
    }

    /** The search for the store and the checks on its stock. */
    method BuyFrom(conn: nat, command: Command) returns (reply: Reply)
      requires Valid() && IsRequest(conn, command) && command.Buy?
      requires Admitted(Abs(), conn) && Amounts(command)
      requires boughtNum < BUY_ID_NUM
      modifies this`data, this`day, this`alcohol, this`threads, this`boughtNum, boughtIds
      ensures Valid()
      ensures reply == if command.kind !in old(Abs()).stores then Nothing
                       else Expected(old(Abs()), conn, command)
      ensures Abs() == Next(old(Abs()), conn, command)
      ensures boughtNum ==
              if !reply.Sold? then old(boughtNum) else if old(day) == 7 then 0 else old(boughtNum) + 1
    {
      hide CityMap, Names, IndexOf, Today, IsId, StoreMap;
      var i := 0;
      while i < |data| && data[i].name != command.kind
        invariant 0 <= i <= |data|
        invariant forall k | 0 <= k < i :: data[k].name != command.kind
      {
        i := i + 1;
      }
      if i == |data| {
        NotInStoreMap(data, command.kind);
        return Nothing;
      }
      StoreMapAt(data, i);
      CityMapAt(data[i].cities, command.city);
      if |data[i].cities| < command.city {
        return BuyFailed;
      }
      var city := data[i].cities[command.city - 1];
      if city.a < command.a || city.b < command.b || city.c < command.c {
        return BuyFailed;
      }
      Sell(conn, i, command);
      reply := Sold;
    }

    method BuyHandler(conn: nat, command: Command) returns (reply: Reply)
      requires Valid() && IsRequest(conn, command) && command.Buy?
      requires boughtNum < BUY_ID_NUM
      modifies this`data, this`day, this`alcohol, this`threads, this`boughtNum, boughtIds
      ensures Valid()
      ensures Covered(old(Abs()), conn, command) ==>
                && reply == Expected(old(Abs()), conn, command)
                && Abs() == Next(old(Abs()), conn, command)
      ensures !Covered(old(Abs()), conn, command) ==>
                && reply == (if StartsWithXXX(command.kind) then BuyFailed else Nothing)
                && Abs() == old(Abs())
      ensures boughtNum ==
              if !reply.Sold? then old(boughtNum) else if old(day) == 7 then 0 else old(boughtNum) + 1
    {
      ThreadIsSession(conn);
      hide StoreMap, CityMap, Names, IndexOf, Today, IsId, FirstRows;
      reply := BuyFailed;
      var t := Thread(conn);
      if !t.loggedIn {
        return;
      }
      var may := CheckDayOfWeek(t.id);
      if !may || StartsWithXXX(command.kind) {
        return;
      }
      if command.a > 3 || command.b > 3 || command.c > 3 {
        return;
      }
      if command.a < 0 || command.b < 0 || command.c < 0 {
        return;
      }
      if command.a + command.b + command.c > 3 {
        return;
      }
      reply := BuyFrom(conn, command);
    }

    /** The dispatch of mask_server: one command, whole, under the mutex. */
    method Handle(conn: nat, command: Command) returns (reply: Reply)
      requires Valid() && IsRequest(conn, command)
      requires boughtNum < BUY_ID_NUM
      modifies this`data, this`day, this`alcohol, this`threads, this`boughtNum, boughtIds
      ensures Valid()
      ensures Covered(old(Abs()), conn, command) ==>
                && reply == Expected(old(Abs()), conn, command)
                && Abs() == Next(old(Abs()), conn, command)
      ensures !Covered(old(Abs()), conn, command) ==>
                && reply == (if StartsWithXXX(command.kind) then BuyFailed else Nothing)
                && Abs() == old(Abs())
      ensures boughtNum == ListLength(old(boughtNum), old(day), reply)
    {
      match command {
        case Login(id) => reply := LoginHandler(conn, id);
        case Logout => reply := LogoutHandler(conn);
        case Buy(_, _, _, _, _) => reply := BuyHandler(conn, command);
        case Statics => reply := Alcohol(alcohol);
        case Invalid => reply := NotValid;
      }
    }
  }

  /** Entries on the bought list after a reply. */
  function ListLength(n: nat, day: int, reply: Reply): nat {
    if reply.LogoutSuccessful? then n + 1
    else if !reply.Sold? then n
    else if day == 7 then 0 else n + 1
  }

  /** The requests on which server and checker agree: not a type that is neither known
      nor XXX and would otherwise be looked up, and not a known type whose name begins
      with XXX and would otherwise be sold. */
  predicate Covered(l: Ledger, conn: nat, command: Command)
    requires Sessions(l.sessions)
  {
    command.Buy? ==>
      if StartsWithXXX(command.kind) then !Sells(l, conn, command)
      else Admitted(l, conn) && Amounts(command) ==> command.kind in l.stores
  }
}
