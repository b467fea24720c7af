/** The mask shop's rules, as its checker states them (0851084_eos_hw3/checker.cpp):
    a machine over maps and sets that says what every command must answer and change. */
module MaskLedger {

  // ---------------------------------------------------------------------------------
  // Identity numbers
  // ---------------------------------------------------------------------------------

  /** One capital letter and nine digits. */
  predicate IsId(id: string) {
    && |id| == 10
    && 'A' <= id[0] <= 'Z'
    && forall i | 1 <= i < 10 :: '0' <= id[i] <= '9'
  }

  function Digit(ch: char): (d: nat)
    requires '0' <= ch <= '9'
    ensures d < 10
  {
    (ch - '0') as nat
  }

  /** The letters in the order of their codes 10, 11, ..., 35. */
  const LETTERS := "ABCDEFGHJKLMNPQRSTUVXYWZIO"

  function LetterCode(ch: char): (code: nat)
    requires 'A' <= ch <= 'Z'
    ensures 10 <= code <= 35 && LETTERS[code - 10] == ch
  {
    if ch <= 'H' then (ch - 'A') as nat + 10
    else if ch == 'I' then 34
    else if ch <= 'N' then (ch - 'J') as nat + 18
    else if ch == 'O' then 35
    else if ch <= 'V' then (ch - 'P') as nat + 23
    else if ch == 'W' then 32
    else if ch == 'X' then 30
    else if ch == 'Y' then 31
    else 33
  }

  /** The digits after the letter, from position `i` up to 8, weighted 8, 7, ..., 1. */
  function Weighted(id: string, i: nat): nat
    requires IsId(id) && 1 <= i <= 9
    decreases 9 - i
  {
    if i == 9 then 0 else Digit(id[i]) * (9 - i) + Weighted(id, i + 1)
  }

  /** The weighted sum of the whole number is a multiple of ten and the last digit is not 0. */
  predicate ValidId(id: string)
    requires IsId(id)
  {
    && (LetterCode(id[0]) / 10 + LetterCode(id[0]) % 10 * 9 + Weighted(id, 1) + Digit(id[9])) % 10 == 0
    && Digit(id[9]) != 0
  }

  // ---------------------------------------------------------------------------------
  // Inventory, commands and replies
  // ---------------------------------------------------------------------------------

  datatype City = City(name: string, a: int, b: int, c: int)

  datatype Store = Store(name: string, cities: seq<City>)

  /** Store types are distinct; city ids are position + 1. */
  predicate IsInventory(data: seq<Store>) {
    forall i, j | 0 <= i < j < |data| :: data[i].name != data[j].name
  }

  datatype Command =
    | Login(id: string)
    | Logout
    | Buy(kind: string, city: nat, a: int, b: int, c: int)
    | Statics
    | Invalid

  /** Connection numbers index the checker's tables of 100; cities are named by one digit. */
  predicate IsRequest(conn: nat, command: Command) {
    && conn < 100
    && (command.Login? ==> IsId(command.id))
    && (command.Buy? ==> 1 <= command.city <= 9)
  }

  datatype Reply =
    | LoginSuccessful | LoginFailed
    | LogoutSuccessful | LogoutFailed
    | Sold | BuyFailed
    | Alcohol(left: int)
    | NotValid
    | Nothing

  // ---------------------------------------------------------------------------------
  // The machine
  // ---------------------------------------------------------------------------------

  /** `sessions` holds the connections that are logged in, with their ids. */
  datatype Ledger = Ledger(
    stores: map<string, map<nat, City>>,
    day: int,
    alcohol: int,
    capacity: int,
    buyList: set<string>,
    sessions: map<nat, string>)

  predicate Sessions(sessions: map<nat, string>) {
    forall c | c in sessions :: IsId(sessions[c])
  }

  /** Odd and even ids alternate through the week; on the seventh day all may buy. */
  predicate Today(day: int, id: string)
    requires IsId(id)
  {
    day == 7 || day % 2 == Digit(id[9]) % 2
  }

  /** The connection may buy: logged in, on its day, and not listed this week. */
  predicate Admitted(l: Ledger, conn: nat)
    requires Sessions(l.sessions)
  {
    && conn in l.sessions
    && Today(l.day, l.sessions[conn])
    && l.sessions[conn] !in l.buyList
  }

  predicate Amounts(command: Command)
    requires command.Buy?
  {
    0 <= command.a && 0 <= command.b && 0 <= command.c && command.a + command.b + command.c <= 3
  }

  predicate InStock(l: Ledger, command: Command)
    requires command.Buy?
  {
    && command.kind in l.stores
    && command.city in l.stores[command.kind]
    && var city := l.stores[command.kind][command.city];
       city.a >= command.a && city.b >= command.b && city.c >= command.c
  }

  predicate Sells(l: Ledger, conn: nat, command: Command)
    requires Sessions(l.sessions)
  {
    command.Buy? && Admitted(l, conn) && Amounts(command) && InStock(l, command)
  }

  function Expected(l: Ledger, conn: nat, command: Command): Reply
    requires Sessions(l.sessions) && IsRequest(conn, command)
  {
    match command
    case Login(id) => if conn !in l.sessions && ValidId(id) then LoginSuccessful else LoginFailed
    case Logout => if conn in l.sessions then LogoutSuccessful else LogoutFailed
    case Buy(_, _, _, _, _) => if Sells(l, conn, command) then Sold else BuyFailed
    case Statics => Alcohol(l.alcohol)
    case Invalid => NotValid
  }

  function Take(city: City, command: Command): City
    requires command.Buy?
  {
    city.(a := city.a - command.a, b := city.b - command.b, c := city.c - command.c)
  }

  function TakeFrom(cities: map<nat, City>, command: Command): map<nat, City>
    requires command.Buy? && command.city in cities
  {
    cities[command.city := Take(cities[command.city], command)]
  }

  function Pour(alcohol: int, capacity: int): int {
    if alcohol - 1 < 5 then capacity else alcohol - 1
  }

  function Next(l: Ledger, conn: nat, command: Command): (l': Ledger)
    requires Sessions(l.sessions) && IsRequest(conn, command)
    ensures Sessions(l'.sessions) && l'.capacity == l.capacity
  {
    match command
    case Login(id) =>
      if conn !in l.sessions && ValidId(id) then l.(sessions := l.sessions[conn := id]) else l
    case Logout =>
      if conn in l.sessions then
        l.(buyList := l.buyList + {l.sessions[conn]}, sessions := l.sessions - {conn})
      else l
    case Buy(kind, city, _, _, _) =>
      if Sells(l, conn, command) then
        Ledger(l.stores[kind := TakeFrom(l.stores[kind], command)],
               if l.day + 1 > 7 then 1 else l.day + 1,
               Pour(l.alcohol, l.capacity),
               l.capacity,
               if l.day + 1 > 7 then {} else l.buyList + {l.sessions[conn]},
               l.sessions - {conn})
      else l
    case Statics => l
    case Invalid => l
  }
}
