# Embedded operating systems labs: models and proofs

The repository holds course work on embedded systems: a first stage boot loader for a Zynq
board (`LAB_2/hdf`), a networked mask shop with its own log checker (`0851084_eos_hw3`), a
keypad calculator (`0851084_eos_lab3`), an account server (`0851084_eos_lab6`) and a guessing
game of two processes (`0851084_eos_lab7`). This project states what their algorithms do and
proves it for all inputs. `dafny verify dfyconfig.toml` verifies it. Everything here is about
the text of the programs; none of them was executed.

Code that updates state is modelled by classes and methods over the same fields, arrays and
loops; each is proved against functions over values, and the theorems are about those.

| files | what they model |
|---|---|
| `QspiSpace.dfy`, `QspiTransfers.dfy`, `QspiHistory.dfy`, `QspiProgress.dfy`, `QspiFlash.dfy` | the banked QSPI read over one, two stacked or two parallel chips: addresses and banks, the schedule of transfers and what their failures leave, one read and histories of reads, the loop's progress, the controller |
| `MaskLedger.dfy`, `MaskServer.dfy`, `MaskRuns.dfy`, `MaskChecker.dfy`, `MaskHistory.dfy`, `MaskLaws.dfy`, `MaskSort.dfy`, `MaskReport.dfy` | the mask shop: the rules, the server, its runs, the log checker, what holds over runs, who is sold masks in plain words, the closing sort and what it does to whole rows |
| `Md5Rfc.dfy`, `Md5Sample.dfy`, `Md5Steps.dfy`, `Md5.dfy` | RFC 1321, one of its test digests, the block function, the incremental hash |
| `NandFlash.dfy` | the NAND read that skips bad blocks |
| `BootHeaders.dfy`, `BootPlan.dfy`, `BootMemory.dfy`, `BootWalk.dfy`, `BootSafety.dfy`, `BootSystem.dfy`, `BootWords.dfy`, `BootPrograms.dfy` | partition headers, what loading a partition must do, what that does to memory and fabric byte by byte, the walk that does it, what holds of every walk, the whole boot, and all that in terms of the raw header words |
| `ImageSearch.dfy`, `BootChain.dfy` | the test for an image and its search; the fallback chain of boots |
| `CalculatorSyntax.dfy`, `Tokeniser.dfy`, `Evaluator.dfy`, `Calculator.dfy`, `Keypad.dfy` | the calculator: meaning, tokeniser, evaluator, both together, keys |
| `Account.dfy` | threads over one balance and one semaphore |
| `GuessGame.dfy` | the guess by halves |
| `Bytes.dfy`, `Arithmetic.dfy`, `Xstatus.dfy` | bytes and words, division, return codes |

## Premises

- QSPI: chip sizes are multiples of 16 MB up to 128 MB; the make is Micron, Macronix or
  Spansion; the range lies inside the flash. Bank registers may hold anything, either chip of
  two stacked ones may be selected, and bank commands and data transfers may fail.
- Mask shop: identity numbers are a capital letter and nine digits; store types are distinct;
  city ids are position + 1 and requests name a city by one digit from 1 to 9; connection
  numbers are below 100 and not reused; the bought list holds fewer than 100000 entries. A run
  is any interleaving of whole commands, since each is handled under one mutex. The requests on
  which server and checker agree are defined by `Covered`, and on all others they differ.
- MD5: bytes are not swapped, the only way the function is called, and words lie low-order
  byte first in memory.
- NAND: the device is made of whole blocks, block sizes are powers of two, and the range starts
  within the good bytes. Page reads may fail.
- Boot: moving, checking, authenticating, decrypting and programming are operations that may
  each fail. A byte of memory is named by the partition and offset it came from; decrypting
  anything but one whole encrypted partition gives garbage; load addresses are multiples of
  four, and memory goes on past the end of the DDR. Statements about contents are for
  partitions that are read whole (`Whole`), which the headers decide.
- Image search: silicon after 1.0; the chain of fallbacks is stated for flashes of at most
  0x1FFF slots and an initial slot inside the flash; a read of the boot device fails always or
  never, depending on its address. The images' header tables are given slot by slot.
- Calculator: the sixteen keys of the keypad, and texts that fit the buffers of twenty places.
- Account: `P` and `V` may fail, and threads come and go at any time.
- Guess: the bound is not negative, and the answering process runs once between ticks.

## What the proofs found

- A stacked QSPI read that runs from the lower chip into the upper one resets only the upper
  chip's bank register. The lower one stays on its last bank, and a later read of its bank 0
  returns that bank's bytes (`FlatAfterHistory`). Before any other read of the lower chip
  nothing shows it.
- A stacked QSPI read whose bank command fails in the upper chip leaves that chip selected, and
  nothing selects the lower one before the next read: it succeeds with the upper chip's bytes
  (`ReadsTheWrongChip`, `FlatAfterFailures`).
- The status of the QSPI data transfer is dropped. A read that reports success delivers the
  bytes it addressed exactly when none of its transfers failed (`DeliveredExactlyWhen`); where
  one failed, bytes of the transfer before it stand again. An odd source address in parallel
  mode loses its last bit.
- The server refuses, and the checker sells, a known type whose name begins with `XXX`; an
  unknown type is not answered at all. These are the only differences
  (`AgreeExactlyWhenCovered`), and the checker's count is 0 exactly on the runs without them.
  Both refuse identity numbers that end in 0, since ten minus a digit is never 0.
- The closing sort exchanges line, city and sum of two rows, but not their stock counts: the
  earlier place keeps its own under the other city, and those of the later place are blanked.
  Every city keeps its own counts exactly when nothing had to be sorted
  (`RowsKeptExactlyWhen`, `TwoCities`).
- In the NAND read the size guard cannot fire for a start inside the device, because the
  length stops at the device's end. Too few good bytes are not noticed there: the copy loop
  delivers those that are left and then asks for a block beyond the device (`NandAccess`).
- In the boot walk a header with neither type bit inherits the flags of the partition before
  it, and a first one those of the image that failed before, since the flags are cleared only
  at reset. From reset, partitions are treated as their own bits say exactly when no untyped
  header is taken after a typed one; from flags a failed image left, exactly when all are typed
  (`OwnKindsExactlyWhen`). A golden image that boots from reset can so be refused
  (`GoldenImageRefused`); it is loaded alike from all flags exactly when its first owned
  partition is typed (`LoadedAlikeExactlyWhen`). A terminator passes the header check.
- Nothing keeps two load ranges apart: an application survives exactly when no later partition
  takes memory that meets it, and different load addresses are not enough (`OverlapSpoils`). A
  verified partition shorter than its image, or a memory move of 2^30 words, whose byte count
  wraps to 0, is not delivered (`ApplicationDeliveredExactlyWhen`).
- The image search ignores the status of its reads, and counts a word that cannot be read as
  the one before it (`ChecksumExactlyWhen`).
- The image search never ends in a flash of more than 0x1FFF slots without a valid image:
  its 13-bit counter wraps round (`TerminatesExactlyWhen`).
- The calculator keeps an operand in a `char`: above 79, or 207 where `char` is unsigned, it
  is read back as another number. `#` does not empty the buffer, so the first answer stays
  until it is cleared.
- The account server ignores the status of `P`. The balance is right over all runs with f
  failures exactly when f is 0 (`BalanceExactlyWhen`), and each failure leaves the semaphore
  one too high for ever (`SemaphoreInvariant`). One more failure of `V` than of `P` shuts every
  thread out (`NoDeadlockExactlyWhen`).
- For a bound of at least 1 the guesser never guesses the bound itself (`HitExactlyWhen`).

## Model

| member | source | states |
|---|---|---|
| `QspiHistory.FlatExactlyWhenFaithful` | LAB_2/hdf/qspi.c:622-743 | For every mode, chip size, register contents and range: a read returns the flat slice for all chip contents if and only if no byte of it lies in bank 0 of a chip whose bank register is not 0 and a parallel read starts at an even address |
| `QspiHistory.FlatDeliveredExactlyWhen` | LAB_2/hdf/qspi.c:551-743 | A read that reports success delivers the flat slice for all chip contents if and only if it is faithful and none of its data transfers fails |
| `QspiTransfers.DeliveredExactlyWhen` | LAB_2/hdf/qspi.c:551-743 | For every mode, range and schedule of transfers, and whatever the buffer held: a read that reports success delivers the observed slice for all chip contents if and only if none of its data transfers fails |
| `QspiTransfers.StaleAt` | LAB_2/hdf/qspi.c:718-726 | Where the first failed transfer should bring its first byte there arrives the first byte of the transfer before it, or of the buffer if it was the first |
| `QspiHistory.FlatAfterHistory` | LAB_2/hdf/qspi.c:622-768 | After any history of successful reads from reset, the next read returns the flat slice for all chip contents if and only if it is not a stacked read starting in bank 0 of a lower chip that an earlier read left on its last bank, and not an odd parallel read |
| `QspiHistory.StaleReadOccurs` | LAB_2/hdf/qspi.c:745-768 | On two stacked chips of 32 MB, reading the last byte of the lower chip and the first of the upper in one call makes a later read of address 0 return the byte at 0x1000000 |
| `QspiHistory.FlatAfterFailures` | LAB_2/hdf/qspi.c:595-768 | After any history of reads, failed ones among them, the next read returns the flat slice for all chip contents if and only if it is faithful from the state they left: where a failed read left the upper chip selected, only in the upper half, and not in its bank 0 unless that chip's register is 0 |
| `QspiHistory.FlatFromExactlyWhen` | LAB_2/hdf/qspi.c:644-672 | The same for one read, from every state of registers and chip selection |
| `QspiHistory.WithoutFailures` | LAB_2/hdf/qspi.c:745-768 | Without failures that is the history of the two registers |
| `QspiHistory.Recovers` | LAB_2/hdf/qspi.c:745-768 | Whatever went before, a successful read in the upper half and then one in the lower half put two stacked chips back as at reset |
| `QspiFlash.ReadsTheWrongChip` | LAB_2/hdf/qspi.c:644-689 | A stacked read in the upper chip whose bank command fails makes the next read, of address 0, succeed with the upper chip's byte |
| `QspiHistory.BanksAfterHistory` | LAB_2/hdf/qspi.c:745-768 | After any history the upper register is 0, and the lower one is 0 unless a read ran from the lower chip into the upper and only the upper chip was read since; then it points at the last bank of the lower chip |
| `QspiHistory.LeftBehindStep` | LAB_2/hdf/qspi.c:745-768 | How one more read makes, keeps or clears the state in which the lower chip is left on its last bank |
| `QspiFlash.Controller.QspiAccess` | LAB_2/hdf/qspi.c:595-772 | The whole call, from any registers and whatever chip is selected: the linear window delivers the flat slice rounded up to words; the banked loop succeeds exactly when no bank command fails, delivers byte for byte what serves the range with the stale bytes that each failed data transfer leaves in it, touches nothing beyond the range, and leaves the stated chip selection, bank registers and number of transfers; when it fails, the upper chip stays selected if the read began so or in the upper half, and only if it reached there. A linear read delivers the whole range asked for, and writes the least multiple of four bytes that covers it |
| `QspiFlash.Controller.BankedRead` | LAB_2/hdf/qspi.c:622-768 | The non-linear branch, from any state: contents under any pattern of failed data transfers, chip selection, both bank registers, the placement of every transfer, and success exactly when the bank commands work |
| `QspiFlash.Controller.CopyLoop` | LAB_2/hdf/qspi.c:631-743 | The loop over chunks: what is copied, with the rest of the schedule still to come, makes up what the read delivers, and the next chunk finds chip, bank and switch flag as its address needs |
| `QspiFlash.Controller.Turn` | LAB_2/hdf/qspi.c:631-743 | One turn selects chip and bank, makes one transfer and one copy, and keeps the loop's invariant: the bytes delivered and those still to come, under any failures, are those of the whole read |
| `QspiFlash.Controller.Reset` | LAB_2/hdf/qspi.c:745-768 | After the loop bank 0 goes to the chip then selected alone, and the lower chip is selected |
| `QspiFlash.Controller.MoveOn` | LAB_2/hdf/qspi.c:691-742 | With chip and bank selected: the next chunk of the schedule, one transfer, one copy, and the loop head |
| `QspiTransfers.Chunk` | LAB_2/hdf/qspi.c:695-716 | The chunk stays inside one bank per chip, is never empty or too long, is even unless it is the last in parallel mode, and asks for a bank switch exactly when it ends on a bank boundary |
| `QspiTransfers.SomeSchedules` | LAB_2/hdf/qspi.c:695-716 | 5000 bytes take transfers of 4096 and 904 bytes, and of 16, 4096 and 888 where a bank of 16 MB ends 16 bytes on |
| `QspiSpace.BankCrossing` | LAB_2/hdf/qspi.c:695-716 | The mask comparison sees a bank boundary, and the shortened length ends exactly on it |
| `QspiHistory.FlatLayout` | LAB_2/hdf/qspi.c:622-672 | Stacked chips hold the two halves of the space, parallel chips its even and odd bytes |
| `QspiFlash.Controller.Position` | LAB_2/hdf/qspi.c:644-689 | Chip and bank selection: when it succeeds, the selected chips hold the bank of the address, and the data part of the buffer is untouched |
| `QspiFlash.Controller.SelectChip` | LAB_2/hdf/qspi.c:644-672 | A stacked address in the upper half selects the upper chip and is made relative to it; nothing selects the lower chip |
| `QspiFlash.Controller.Advance` | LAB_2/hdf/qspi.c:728-742 | After a chunk the address, the registers and the switch flag again satisfy the loop head |
| `QspiFlash.Controller.MoveChunk` | LAB_2/hdf/qspi.c:718-726 | One transfer and its copy: the data part of the buffer holds the observed bytes, or, if the transfer failed, byte for byte what it held before; the destination gets those bytes |
| `QspiFlash.Controller.FetchIsObserved` | LAB_2/hdf/qspi.c:551-576 | Under the selected chip and bank, the 24-bit read at the loop's address returns the observed byte of the flat space |
| `QspiFlash.Controller.FlashRead` | LAB_2/hdf/qspi.c:551-576 | A data transfer fills the buffer with the bytes of the selected chip at the low 24 bits of the address; a failure is not reported and leaves the buffer as it was |
| `QspiFlash.Controller.SendBankSelect` | LAB_2/hdf/qspi.c:787-875 | Success exactly when none of its commands failed, and then the selected chip, or both in parallel mode, holds the bank; only the command part of the buffer changes; a success takes three commands on Micron and Macronix chips and two on Spansion ones |
| `QspiHistory.ObservedIsFlat` | LAB_2/hdf/qspi.c:622-743 | Byte by byte: in a faithful range what the banked read observes is the flat space |
| `QspiHistory.StaleByte` | LAB_2/hdf/qspi.c:677-689 | In a range that is not faithful, chips that differ from bank to bank show a wrong byte |
| `QspiHistory.FaithfulSuffices` | LAB_2/hdf/qspi.c:622-743 | In a faithful range the observed slice is the flat slice |
| `QspiFlash.DroppedRead` | LAB_2/hdf/qspi.c:574-575 | A banked read on any controller whose bank commands work and whose data transfers all fail reports success, makes every transfer of its schedule, and delivers nothing but bytes its buffer held before |
| `MaskHistory.ServeThenCheck` | 0851084_eos_hw3/hw3.cpp:231-526 | Server and checker end to end, for every interleaving of requests over any connections: the log is that of the requests, the checker's count is 0 if and only if every request was covered, and then both end with the same stock, day, alcohol, bought list and sessions |
| `MaskHistory.ServeByTheLaws` | 0851084_eos_hw3/hw3.cpp:231-526 | Whatever a server is asked, covered or not: its day and alcohol are those of the number of sales, its bought list is the ids that bought or logged out since the last week's end, and every city has what it began with less what it sold |
| `MaskLaws.SoldExactlyWhen` | 0851084_eos_hw3/hw3.cpp:317-454 | Over every run of server or checker a purchase is answered by a sale if and only if the connection is logged in; the day, that of the sales so far, is the seventh or both day and last digit are odd or both even; the id is not listed since the last week's end; the amounts are not negative and sum to at most 3; and what the city began with less what it sold covers them; the server sells no type that begins with XXX |
| `MaskLaws.OtherReplies` | 0851084_eos_hw3/checker.cpp:256-297 | The replies to login, logout and the alcohol report |
| `MaskLaws.ValidIdInFull` | 0851084_eos_hw3/hw3.cpp:118-157 | The weighted sum of an identity number written out, with the official letter order |
| `MaskLaws.SomeStores` | 0851084_eos_hw3/hw3.cpp:381-400 | Stores are found by their type and cities by their place, from 1 |
| `MaskLaws.BottleOfTen` | 0851084_eos_hw3/hw3.cpp:405-409 | A bottle of ten is poured down to five before it is filled up again |
| `MaskRuns.NoWrongExactlyWhenCovered` | 0851084_eos_hw3/checker.cpp:244-412 | The checker objects to nothing in the server's log if and only if the requests were covered; then every reply is the expected one |
| `MaskRuns.Serve` | 0851084_eos_hw3/hw3.cpp:492-526 | Over any run every logged reply is the one given at that point, the expected one where covered and the stated other one elsewhere, and the server ends in the state of the run |
| `MaskRuns.AgreeExactlyWhenCovered` | 0851084_eos_hw3/hw3.cpp:354-360 | Server and checker give the same answer to a request if and only if it is covered: the condition is exact |
| `MaskHistory.XXXIsTurnedAway` | 0851084_eos_hw3/hw3.cpp:354-360 | A store type XXXA with masks in stock: the server refuses a visitor to whom the checker expects a sale |
| `MaskHistory.UnknownTypeIsNotAnswered` | 0851084_eos_hw3/hw3.cpp:381-446 | A type the shop does not have: the server says nothing where the checker expects a refusal |
| `MaskServer.Server.Handle` | 0851084_eos_hw3/hw3.cpp:492-526 | One command under the mutex: expected reply and next ledger state when covered; otherwise the stated other reply and no change |
| `MaskServer.Server.LoginHandler` | 0851084_eos_hw3/hw3.cpp:231-280 | Login simulates the ledger: refused when logged in or when the identity number is wrong |
| `MaskServer.Server.LogoutHandler` | 0851084_eos_hw3/hw3.cpp:282-315 | Logout simulates the ledger, adding the id to the bought list |
| `MaskServer.Server.BuyHandler` | 0851084_eos_hw3/hw3.cpp:317-454 | Buying simulates the ledger on every covered request; the day, list, name, amount and stock tests agree in every branch |
| `MaskServer.Server.BuyFrom` | 0851084_eos_hw3/hw3.cpp:381-446 | The search over the stores and the stock tests agree with the map lookups; an unknown type is not answered at all |
| `MaskServer.Server.Sell` | 0851084_eos_hw3/hw3.cpp:397-441 | A sale in the arrays is the ledger's sale: stock, alcohol, list, session and day |
| `MaskServer.Server.Deduct` | 0851084_eos_hw3/hw3.cpp:397-409 | Deducting in place in the row found is deducting in the map, and alcohol refills below 5 |
| `MaskServer.StoreMapBuy` | 0851084_eos_hw3/hw3.cpp:397-400 | Updating one city of one store in the array changes the map at that type and city and nowhere else |
| `MaskServer.Server.NextDay` | 0851084_eos_hw3/hw3.cpp:431-441 | The eighth day is the first, with an empty list |
| `MaskServer.Server.Remember` | 0851084_eos_hw3/hw3.cpp:423-427 | Ten character writes append the id to the live rows and change no other row |
| `MaskServer.Server.CheckDayOfWeek` | 0851084_eos_hw3/hw3.cpp:159-193 | Allowed exactly when the parity of the last digit fits the day, or it is day 7, and the id is not among the live rows |
| `MaskServer.CheckId` | 0851084_eos_hw3/hw3.cpp:118-157 | Accepts exactly the numbers whose weighted sum is a multiple of ten and whose last digit is not 0 |
| `MaskServer.CheckDigit` | 0851084_eos_hw3/hw3.cpp:148-156 | Ten minus the last digit of the sum equals the check digit exactly when their sum is a multiple of ten and the check digit is not 0 |
| `MaskServer.LetterChain` | 0851084_eos_hw3/hw3.cpp:120-147 | The chain of ranges gives every letter its code in the official letter order |
| `MaskServer.Server.constructor` | 0851084_eos_hw3/hw3.cpp:529-580 | A new server stands for the ledger of its inventory, with an empty list and no sessions |
| `MaskHistory.BuyListStep` | 0851084_eos_hw3/checker.cpp:256-387 | One command puts an id on the bought list exactly when it logs out or buys, and empties the list exactly at the seventh day's sale |
| `MaskHistory.StockStep` | 0851084_eos_hw3/checker.cpp:298-339 | One command changes a city's stock exactly by the masks sold there, and never below 0 |
| `MaskHistory.CounterStep` | 0851084_eos_hw3/checker.cpp:323-345 | One command moves day and alcohol exactly when it is a sale |
| `MaskHistory.SessionStep` | 0851084_eos_hw3/checker.cpp:256-345 | One command opens a session exactly at a successful login, closes it at a logout or sale, and leaves all others |
| `MaskLedger.LetterCode` | 0851084_eos_hw3/checker.cpp:732-773 | The letter's code is its place in the letter order |
| `MaskChecker.JudgeCorrection` | 0851084_eos_hw3/checker.cpp:727-788 | The table and loops of the checker accept exactly the numbers the server accepts |
| `MaskChecker.LetterNumber` | 0851084_eos_hw3/checker.cpp:732-773 | The switch over character codes agrees with the letter order |
| `MaskChecker.Checker.Check` | 0851084_eos_hw3/checker.cpp:97-412 | Both passes over a log: the state after its requests, and the count of replies that differ from the expected ones, a report of the alcohol between a buyer's previous command and its sale excused |
| `MaskChecker.Checker.Compare` | 0851084_eos_hw3/checker.cpp:244-412 | One entry of the second pass is objected to exactly when its reply is wrong and not excused |
| `MaskChecker.Checker.CheckFlag` | 0851084_eos_hw3/checker.cpp:236-242 | True exactly when the index lies in none of the recorded areas |
| `MaskChecker.Checker.Record` | 0851084_eos_hw3/checker.cpp:205-213 | A sale is noted with the last command of its connection before it |
| `MaskChecker.Checker.UnderWayIsExcused` | 0851084_eos_hw3/checker.cpp:236-242 | Once the first pass has noted every sale, the areas hold an index exactly when a sale follows it with no command of the buyer in between |
| `MaskChecker.Checker.CheckLogin` | 0851084_eos_hw3/checker.cpp:256-275 | The checker's login is the ledger's |
| `MaskChecker.Checker.CheckLogout` | 0851084_eos_hw3/checker.cpp:276-297 | The checker's logout is the ledger's |
| `MaskChecker.Checker.CheckBuy` | 0851084_eos_hw3/checker.cpp:298-387 | The checker's nested tests and updates are the ledger's purchase |
| `MaskChecker.Checker.RecordSale` | 0851084_eos_hw3/checker.cpp:323-339 | The checker's tables after a sale are the ledger's |
| `MaskHistory.BuyListIsListedSince` | 0851084_eos_hw3/hw3.cpp:302-307 | Over every run of the server, and of the checker, an id is on the bought list exactly when it bought or logged out at some step with no week ended since |
| `MaskHistory.NoSecondPurchase` | 0851084_eos_hw3/hw3.cpp:159-193 | Over every run of either, no id buys after being listed, on any connection, unless a week ends in between |
| `MaskHistory.StockIsConserved` | 0851084_eos_hw3/hw3.cpp:390-441 | Over every run of either, for every city and kind of mask, current stock plus masks sold is the initial stock, and stock never goes below 0 |
| `MaskHistory.DayAndAlcohol` | 0851084_eos_hw3/hw3.cpp:405-440 | Over every run of either, after k sales the day has advanced k places round the week and the alcohol k places round its cycle of capacity - 4 levels |
| `MaskHistory.PourStep` | 0851084_eos_hw3/hw3.cpp:405-409 | One sale moves the alcohol one place round its cycle, for every capacity |
| `MaskHistory.DayInWeek` | 0851084_eos_hw3/hw3.cpp:431-433 | The day stays within 1 to 7 over every run |
| `MaskSort.ServerSort` | 0851084_eos_hw3/hw3.cpp:50-85 | In every store the triples of line, city and sum become a stable rearrangement with falling sums; the three counts stay at their position, under whatever city comes there, and are blanked at exactly the positions that some city moves up across; rows beyond the count, and the type and count of the first row, survive |
| `MaskReport.RowsKeptExactlyWhen` | 0851084_eos_hw3/hw3.cpp:50-85 | For counts that are not negative: the rows in use are rearranged as wholes, every city keeping its line and its own three counts, if and only if their sums already fall and nothing is to be sorted |
| `MaskReport.TwoCities` | 0851084_eos_hw3/hw3.cpp:50-85 | A city with one mask before a city with two: the second comes first with the first one's mask, and the first is left none |
| `MaskSort.CountsKeptExactlyWhen` | 0851084_eos_hw3/hw3.cpp:50-85 | Place by place: the counts there are as before if and only if the places crossed had none |
| `MaskSort.BlankExactlyWhenCrossed` | 0851084_eos_hw3/hw3.cpp:64-81 | After the passes a position has lost its other fields exactly when some row before it had a lower sum than some row from it on |
| `MaskSort.NoneCrossedExactlyWhen` | 0851084_eos_hw3/hw3.cpp:50-85 | No position is crossed if and only if the sums fell from the start |
| `MaskSort.Pass` | 0851084_eos_hw3/hw3.cpp:58-84 | One pass keeps the sorted tail, brings the least of the rest to its head, and is stable |
| `MaskSort.Exchange` | 0851084_eos_hw3/hw3.cpp:64-81 | The exchange moves line, city and sum both ways; the row at the earlier place keeps its own counts under the other city, and the counts, type and number at the later place are blanked |
| `MaskSort.BubbleStore` | 0851084_eos_hw3/hw3.cpp:58-84 | The passes sort one store in place, stably |
| `MaskSort.SumStore` | 0851084_eos_hw3/hw3.cpp:52-57 | Every row in use gets its sum; the others are untouched |
| `MaskSort.SwapIsStable` | 0851084_eos_hw3/hw3.cpp:63-81 | Exchanging neighbours with different sums keeps the rows of every sum in order |
| `MaskSort.StableIsPermutation` | 0851084_eos_hw3/hw3.cpp:50-85 | A stable rearrangement is a permutation |
| `MaskSort.SortIsDetermined` | 0851084_eos_hw3/hw3.cpp:50-85 | Falling sums and stability leave one possible result |
| `Md5.Md5Sum` | LAB_2/hdf/md5.c:475-484 | For every input and length, the digest is that of RFC 1321 and nothing beyond its 16 bytes is written |
| `Md5.Md5Pieces` | LAB_2/hdf/md5.c:306-454 | However the message is cut into pieces, the digest is RFC 1321's digest of their concatenation |
| `Md5Sample.Abc` | LAB_2/hdf/md5.c:176-284 | The reference definition gives the digest of abc in appendix A.5 of RFC 1321 |
| `Md5.MD5Context.MD5Update` | LAB_2/hdf/md5.c:306-376 | The context after an update is that of the longer message: chaining value, pending bytes and counter depend on the message alone |
| `Md5.MD5Context.MD5Final` | LAB_2/hdf/md5.c:397-454 | Padding, length and output give RFC 1321's digest of everything taken in |
| `Md5.MD5Context.constructor` | LAB_2/hdf/md5.c:273-284 | The initial context stands for the empty message |
| `Md5.MD5Context.Count` | LAB_2/hdf/md5.c:312-325 | The counter part of an update keeps the two words equal to 8 times the byte count |
| `Md5.CounterAdvances` | LAB_2/hdf/md5.c:316-325 | The hand-written carry counts 8 bits a byte modulo 2^64, for every length of piece |
| `Md5.PendingFromCounter` | LAB_2/hdf/md5.c:327-331 | The low counter word alone gives the number of pending bytes |
| `Md5.MD5Context.TakeAll` | LAB_2/hdf/md5.c:337-374 | The data part of an update, in all three of its shapes, keeps the chaining value over the whole blocks and the rest pending |
| `Md5.MD5Context.TakeRest` | LAB_2/hdf/md5.c:356-374 | The block loop absorbs whole blocks and leaves the remainder pending |
| `Md5.MD5Context.FillBlock` | LAB_2/hdf/md5.c:337-354 | A pending block is completed and absorbed |
| `Md5.MD5Context.StoreShort` | LAB_2/hdf/md5.c:338-345 | A piece too short to complete the block is appended to the pending bytes |
| `Md5.MD5Context.PadTwice` | LAB_2/hdf/md5.c:423-434 | With more than 55 pending bytes the padding takes two blocks and equals section 3.1 of RFC 1321 |
| `Md5.MD5Context.PadOnce` | LAB_2/hdf/md5.c:435-440 | With at most 55 pending bytes it takes one |
| `Md5.MD5Context.FinishBlock` | LAB_2/hdf/md5.c:442-448 | The two counter words end the last block as section 3.2 of RFC 1321 asks, low-order word first |
| `Md5.MD5Context.CopyOut` | LAB_2/hdf/md5.c:450-453 | The digest is the four words, low-order bytes first |
| `Md5.MD5Memcpy` | LAB_2/hdf/md5.c:123-147 | Copies the bytes and nothing else |
| `Md5.MD5Memset` | LAB_2/hdf/md5.c:97-105 | Sets the bytes and nothing else |
| `Md5Steps.MD5Transform` | LAB_2/hdf/md5.c:176-258 | The 64 steps compute the block function of section 3.4 of RFC 1321 |
| `Md5Steps.StepIsOperation` | LAB_2/hdf/md5.h:89-90 | One MD5_STEP is one operation of the RFC, its sums regrouped |
| `Md5Steps.F1IsF` | LAB_2/hdf/md5.h:80-80 | The optimised F1 is the RFC's F |
| `Md5Steps.F2IsG` | LAB_2/hdf/md5.h:81-81 | F2, which is F1 with its arguments turned, is the RFC's G |
| `Md5Steps.SmallRotations` | LAB_2/hdf/md5.h:89-90 | Shifting both ways and joining is a rotation, for the small shifts used |
| `Md5Steps.LargeRotations` | LAB_2/hdf/md5.h:89-90 | And for the large ones |
| `Md5Steps.FourSteps` | LAB_2/hdf/md5.c:185-251 | Four steps in turn of roles are four operations |
| `Md5Steps.Round1` | LAB_2/hdf/md5.c:185-200 | Round 1 is operations 0 to 15 |
| `Md5Steps.Round2` | LAB_2/hdf/md5.c:202-217 | Round 2 is operations 16 to 31 |
| `Md5Steps.Round3` | LAB_2/hdf/md5.c:219-234 | Round 3 is operations 32 to 47 |
| `Md5Steps.Round4` | LAB_2/hdf/md5.c:236-251 | Round 4 is operations 48 to 63 |
| `Md5Rfc.Padded` | LAB_2/hdf/md5.c:405-446 | The padded length is a multiple of 64, the fewest zeros between the 1 bit and the length |
| `NandFlash.Nand.NandAccess` | LAB_2/hdf/nand.c:162-240 | For every map of bad blocks and every range that starts within the good bytes, aligned or not, the size guard never fires. While no page read fails the destination is the slice of the good blocks joined together, if they hold enough; if not, all that is left of them is copied and the loop asks for a block beyond the device |
| `NandFlash.SomeGoodBytes` | LAB_2/hdf/nand.c:175-239 | Of three blocks of two bytes, the middle one bad, the four bytes of the others are good, in order |
| `NandFlash.Nand.EndIs` | LAB_2/hdf/nand.c:162-240 | Without failures the read runs off the device if and only if there are too few good bytes |
| `NandFlash.Nand.BadBlocksBefore` | LAB_2/hdf/nand.c:175-192 | The blocks counted are the bad ones among the fewest blocks that hold that many good bytes, and adding them gives the physical place of the good address |
| `NandFlash.Nand.CalculateLength` | LAB_2/hdf/nand.c:258-289 | From any start inside the device the length ends with the block of the last good byte wanted or with the device, never beyond it |
| `NandFlash.Nand.CopyGood` | LAB_2/hdf/nand.c:206-239 | The loop steps over bad blocks and copies the good space in order |
| `NandFlash.Nand.Turn` | LAB_2/hdf/nand.c:206-239 | One turn of the loop steps over a bad block or copies from a good one |
| `NandFlash.Nand.CopyChunk` | LAB_2/hdf/nand.c:218-236 | A chunk inside one good block continues the slice |
| `NandFlash.Nand.BlockAt` | LAB_2/hdf/nand.c:207-209 | The masks give block and distance to its end |
| `NandFlash.Nand.GoodSlice` | LAB_2/hdf/nand.c:230-236 | Bytes of a good block lie in the good space at its good address |
| `NandFlash.GoodIsPrefix` | LAB_2/hdf/nand.c:181-192 | The good bytes of fewer blocks are a prefix of those of more |
| `BootWalk.LoadBootImage` | LAB_2/hdf/image_mover.c:158-577 | The walk over any header table ends in one of the stated ways: all headers or a stop with the operations of every partition taken, or a fallback with the code of the header or operation that failed; or it is not begun, for the stated reason |
| `BootWalk.Mover.WalkPartitions` | LAB_2/hdf/image_mover.c:287-576 | The operations asked for are exactly the plans of the partitions taken, in order, cut short only at the operation that failed; the result is the address the walk defines |
| `BootWalk.Mover.Visit` | LAB_2/hdf/image_mover.c:301-574 | One header skips, stops, falls back or is loaded as its verdict says, and the flags carry on |
| `BootWalk.Mover.Examine` | LAB_2/hdf/image_mover.c:305-439 | The tests on a header, in their order, give the verdict, and the flags set are those of the header |
| `BootWalk.Mover.ExamineLoad` | LAB_2/hdf/image_mover.c:383-439 | The tests on encryption and load address, once the kind is known |
| `BootWalk.Mover.LoadPartition` | LAB_2/hdf/image_mover.c:449-569 | One partition's operations are its plan, or a prefix of it up to the one that failed |
| `BootWalk.Mover.Deliver` | LAB_2/hdf/image_mover.c:464-556 | Between the hooks: moved, verified and used, split over two functions |
| `BootWalk.Mover.Verify` | LAB_2/hdf/image_mover.c:471-525 | Checksum before signature, each only where the header asks for it; without RSA support a signed partition is refused |
| `BootWalk.Mover.Use` | LAB_2/hdf/image_mover.c:527-555 | A verified application is decrypted in place to its data length, a verified bitstream programmed from its staging address |
| `BootWalk.Mover.PartitionMove` | LAB_2/hdf/image_mover.c:1057-1180 | The transfers to memory and, for an unverified bitstream, on into the fabric, for every combination of device, kind, signature, checksum and encryption |
| `BootWalk.ReadHeaders` | LAB_2/hdf/image_mover.c:249-275 | Header authentication reads the headers, to the staging area, before it checks them |
| `BootHeaders.IsLastPartition` | LAB_2/hdf/image_mover.c:898-914 | True exactly for the terminator |
| `BootHeaders.IsEmptyHeader` | LAB_2/hdf/image_mover.c:981-992 | True exactly for the header of sixteen zeros |
| `BootHeaders.EmptyIsInvalid` | LAB_2/hdf/image_mover.c:937-943 | The empty header fails the checksum test as well |
| `BootHeaders.TerminatorIsValid` | LAB_2/hdf/image_mover.c:931-962 | The terminator passes the header check: only the count keeps the walk off it |
| `BootHeaders.ValidatePartitionHeaderChecksum` | LAB_2/hdf/image_mover.c:1010-1039 | True exactly when the last word is the complement of the sum of the others |
| `BootHeaders.ValidateHeader` | LAB_2/hdf/image_mover.c:931-962 | True exactly when the checksum holds and the image length is within its maximum |
| `BootHeaders.GetPartitionCount` | LAB_2/hdf/image_mover.c:865-877 | The headers counted are those before the first terminator |
| `BootMemory.PlanMemory` | LAB_2/hdf/image_mover.c:464-556 | However it is protected and whatever the device, loading a partition leaves in its extent exactly its bytes, decrypted where it is an application, and every other byte of memory as it was; a bitstream is programmed once, decrypted |
| `BootMemory.ApplicationDeliveredExactlyWhen` | LAB_2/hdf/image_mover.c:1082-1161 | An application ends decrypted at its load address, every byte of it and whatever memory held before, if and only if the bytes moved from the boot device make up its whole image |
| `BootMemory.BitstreamProgrammedExactlyWhen` | LAB_2/hdf/image_mover.c:1109-1177 | A bitstream is programmed into the fabric exactly once and decrypted, whatever memory held before, if and only if the bytes moved make up its whole image |
| `BootMemory.PlanEffects` | LAB_2/hdf/image_mover.c:464-556 | Hooks and verification change neither memory nor fabric |
| `BootPlan.VerifiedBeforeUse` | LAB_2/hdf/image_mover.c:471-556 | In a verified partition every decryption and every programming comes after staging, checksum and signature |
| `BootPlan.ChecksumBeforeSignature` | LAB_2/hdf/image_mover.c:482-525 | The checksum comes before the signature |
| `BootSafety.TakenMayLoad` | LAB_2/hdf/image_mover.c:315-439 | Only headers that pass the check, belong to the loader, are encrypted where that is mandatory and, for applications, load within the DDR are loaded |
| `BootSafety.TakenInOrder` | LAB_2/hdf/image_mover.c:301-574 | Each at most once, in the order of the headers |
| `BootSafety.OwnedAreTaken` | LAB_2/hdf/image_mover.c:334-350 | Every header the loader owns, up to where the walk gets, is loaded |
| `BootSafety.NoBitstreamAfterApplication` | LAB_2/hdf/image_mover.c:352-372 | No bitstream is loaded after an application |
| `BootSafety.ExecIsFirstApplication` | LAB_2/hdf/image_mover.c:441-447 | The address handed over is that of the first application loaded, or 0 when there is none |
| `BootSafety.OpsLoad` | LAB_2/hdf/image_mover.c:287-576 | After the operations for the partitions taken the fabric has received every bitstream once, decrypted, in order, and nothing else, and each byte of memory is what the last partition to reach it left there |
| `BootSafety.ApplicationInPlaceExactlyWhen` | LAB_2/hdf/image_mover.c:1117-1151 | At the end an application lies whole and decrypted at its load address if and only if no partition loaded after it takes memory that meets it |
| `BootSafety.ByteInPlaceExactlyWhen` | LAB_2/hdf/image_mover.c:1117-1151 | The same byte by byte |
| `BootSafety.ApartExactlyWhen` | LAB_2/hdf/image_mover.c:1117-1151 | The comparison of two address ranges says exactly that one partition takes no byte of the other |
| `BootSafety.OverlapSpoils` | LAB_2/hdf/image_mover.c:1117-1151 | Two applications of 1000 words at different addresses, the second one word above the first: the first keeps only its first word |
| `BootSafety.LaterLoadsOnly` | LAB_2/hdf/image_mover.c:352-372 | From any flags, whatever is loaded after an application is an application and goes to its own load address, never to the staging area, except where the order breaks |
| `BootSafety.ApplicationsComeLast` | LAB_2/hdf/image_mover.c:352-381 | From any flags, no partition is treated as a bitstream after one was treated as an application, unless the flags were left at application, the first header taken is untyped and the first typed one taken is a bitstream's alone; then one is |
| `BootSafety.OwnKindsExactlyWhen` | LAB_2/hdf/image_mover.c:352-381 | Every partition is treated as its own bits say if and only if, from reset, no header without a type bit is taken after one with a type bit, and, from flags an earlier image left, every header taken has one |
| `BootSafety.OrderBreaks` | LAB_2/hdf/image_mover.c:352-381 | From flags left at application, an untyped header and then a bitstream's are both taken, the second as a bitstream |
| `BootSafety.LoadedAlikeExactlyWhen` | LAB_2/hdf/image_mover.c:119-120 | The flags are never cleared: an image is loaded alike whatever image failed before it if and only if the first header the loader owns has a type bit |
| `BootSafety.RefusedAfterApplication` | LAB_2/hdf/image_mover.c:416-439 | A data partition below the DDR is taken from reset, and refused after an image that left the flags at application |
| `BootSafety.UntypedFollowsBitstream` | LAB_2/hdf/image_mover.c:352-372 | A header with neither type bit that follows a bitstream is taken, and programmed into the fabric as one |
| `BootSystem.Boot` | LAB_2/hdf/image_mover.c:158-577 | From any flags, over any header table and any failures: the boot hands over if and only if the table fits, authentication has its support, the walk ends at a terminator or stop with every header before it passed, and no operation fails; otherwise it falls back with the code of the header or operation that failed. When it hands over, fabric and memory hold, byte by byte and whatever they held before, what the partitions taken leave there, applications that were left alone are in place, and the address is that of the first application or 0 |
| `BootWords.OneApplicationBoots` | LAB_2/hdf/image_mover.c:287-576 | An image of one plain application, attribute word 0x10, boots from reset: word 0 words are moved to the address of word 3 and nothing else is done, and word 4 is handed over |
| `BootWords.OneBitstreamBoots` | LAB_2/hdf/image_mover.c:287-576 | An image of one plain bitstream, attribute word 0x20, is programmed into the fabric once between the hooks, and 0 is handed over |
| `BootWords.ApplicationInWords` | LAB_2/hdf/image_mover.h:91-97 | With bit 4 of word 6 set: every operation of the plan in the header's words, by bits 12 to 14 for the checksum, bit 15 for the signature, and words 0 and 1 for encryption |
| `BootWords.BitstreamInWords` | LAB_2/hdf/image_mover.h:91-97 | With bit 5 and not bit 4 set: every operation of the plan in the header's words |
| `BootPrograms.LoadsInWords` | LAB_2/hdf/image_mover.c:352-372 | A header with bit 4 asks for no programming, one with bit 5 and not bit 4 for exactly one |
| `BootPrograms.ProgrammedInWords` | LAB_2/hdf/image_mover.c:352-372 | From reset, where no header without bits 4 and 5 is taken after one with either, the fabric is programmed exactly once for every header taken with bit 5 and not bit 4 |
| `BootWords.ExecInWords` | LAB_2/hdf/image_mover.c:441-447 | Unless the flags were left at application, the address handed over is word 4 of the first header taken with bit 4, or 0 |
| `BootWords.VerdictInWords` | LAB_2/hdf/image_mover.c:315-439 | What becomes of a header, by its words: checksum, length, owner bits 16 and 17, order, encryption and load address, in the order of the tests |
| `BootWords.TakenInWords` | LAB_2/hdf/image_mover.c:315-439 | What the words of every loaded header satisfy |
| `BootWords.OwnedInWords` | LAB_2/hdf/image_mover.c:334-350 | Every header with bits 16 and 17 clear that the walk gets past is loaded |
| `BootWords.TableInWords` | LAB_2/hdf/image_mover.c:637-655 | A table fits with at most 13 partitions, and at least 2 but for MMC, before its end |
| `BootWords.CodesInWords` | LAB_2/hdf/image_mover.c:449-569 | The code reported for each operation that fails |
| `BootWords.ApplicationInMemory` | LAB_2/hdf/image_mover.c:1082-1161 | A whole application's bytes lie from the address of word 3 on, word 1 words of them, in the clear |
| `BootWords.WholeInWords` | LAB_2/hdf/image_mover.c:1098-1119 | A partition is read whole if four bytes a word, modulo 2^32 when the processor moves them, cover its image |
| `BootSystem.FallbackNeverBoots` | LAB_2/hdf/image_mover.c:158-577 | A boot that falls back could not have handed over at any header |
| `BootSystem.FallbackLeaves` | LAB_2/hdf/image_mover.c:301-439 | A boot that falls back leaves the flags of the header it last examined, and the operations up to the one that failed |
| `BootSystem.PreludeKeepsFabric` | LAB_2/hdf/image_mover.c:249-275 | Reading the headers into memory and authenticating them leaves the fabric alone |
| `ImageSearch.TerminatesExactlyWhen` | LAB_2/hdf/main.c:1461-1501 | The search ends if and only if the flash is at most 0x1FFF slots of 32 KB or one of the 8192 slots holds a valid image |
| `BootChain.Loader.NextValidImageCheck` | LAB_2/hdf/main.c:1427-1504 | The search stops at the first slot at or after the register's that is valid or past the end; success is a valid image inside the flash, recorded in the register; failure leaves the register alone |
| `BootChain.Loader.LoadBootImage` | LAB_2/hdf/image_mover.c:158-577 | The chain of boots from a slot, over one set of flags: candidates in strictly rising order with none left out, each failed one but the last followed by a search and leaving its flags and operations to the next; the end is the first that boots with what it inherits, with all that a boot with those flags does, or none left, a reset because the key is not in eFuses, or no fallback because of the boot mode, an uninitialised system or a fabric that cannot be cleaned |
| `BootChain.Loader.FsblFallback` | LAB_2/hdf/main.c:609-714 | The same chain, entered when the image in a slot has failed |
| `BootChain.Loader.GoldenImage` | LAB_2/hdf/main.c:609-714 | Where the search is never barred, the chain hands over at the first attempt that boots with what it inherits, no candidate before it left out, or every candidate was tried and none boots so |
| `BootChain.Loader.LeastSoundIsLoaded` | LAB_2/hdf/main.c:609-714 | Where besides no operation fails and the first owned partition of every candidate has a type bit, the chain hands over to the least candidate that boots from reset, if there is one, and otherwise finds no image |
| `BootChain.GoldenImageRefused` | LAB_2/hdf/image_mover.c:416-439 | An image of one data partition below the DDR boots from reset, and is refused when the image before it has failed at its application |
| `BootChain.BootsAlike` | LAB_2/hdf/image_mover.c:119-120 | An image whose first owned partition has a type bit boots from any flags if it boots from some |
| `BootChain.Loader.AttemptsBounded` | LAB_2/hdf/main.c:609-714 | A chain makes no more load attempts than there are slots from its start to the end of the flash |
| `BootChain.Loader.ChainGoesOn` | LAB_2/hdf/main.c:683-701 | A chain that goes on at the next valid image extends the one before it |
| `BootChain.Loader.UpdateMultiBootRegister` | LAB_2/hdf/main.c:1045-1068 | The slot moves up by one |
| `ImageSearch.NoWrap` | LAB_2/hdf/main.c:1491-1500 | In a flash the counter can step past, step k of the search is at slot start + k |
| `ImageSearch.SlotAfter` | LAB_2/hdf/main.c:1461-1500 | The masked 32-bit counter steps round 8192 slots |
| `BootChain.Loader.NothingBetween` | LAB_2/hdf/main.c:1464-1501 | No slot the search passed holds a valid image |
| `ImageSearch.HeaderChecksum` | LAB_2/hdf/main.c:1347-1379 | True exactly when the word fetched last is the complement of the sum of the ten fetched before it, a failed read counting what the variable held |
| `ImageSearch.ImageCheckID` | LAB_2/hdf/main.c:1395-1411 | True exactly when the word fetched is the identification, what the stack held if the read failed |
| `ImageSearch.ValidInFull` | LAB_2/hdf/main.c:1464-1476 | Where every read works a slot holds an image if and only if the word 36 bytes in says XLNX and the checksum is right |
| `ImageSearch.SummedInFull` | LAB_2/hdf/fsbl.h:500-513 | The checksum is right if and only if the word at 0x48 is the complement of the 32-bit sum of the ten words from 0x20 to 0x44 |
| `ImageSearch.ReadsInFull` | LAB_2/hdf/fsbl.h:500-513 | The reads that must work are those of the words from 0x20 to 0x48 |
| `ImageSearch.OnlyTheHeaderCounts` | LAB_2/hdf/main.c:1347-1411 | No word outside 0x20 to 0x48 has a say in whether there is an image |
| `ImageSearch.IdentInLetters` | LAB_2/hdf/fsbl.h:503-514 | The identification is the letters XLNX |
| `ImageSearch.SlotsInBytes` | LAB_2/hdf/main.c:1461-1463 | The slots of the register's low 13 bits lie 32768 bytes apart |
| `ImageSearch.ChecksumExactlyWhen` | LAB_2/hdf/main.c:1347-1379 | The test is that of the stored checksum, whatever the device holds, if and only if none of its eleven reads fails |
| `ImageSearch.IdentExactlyWhen` | LAB_2/hdf/main.c:1395-1411 | The test is that of the stored identification, whatever device and stack hold, if and only if its read does not fail |
| `Keypad.ShowsTheValue` | 0851084_eos_lab3/lab3.c:259-321 | Whatever was in the buffer: clearing it, keying any expression of operands up to 79 and pressing # shows its value, with * and / binding tighter and all operators grouping from the left |
| `Keypad.KeyExpression` | 0851084_eos_lab3/lab3.c:259-321 | Through the main loop: clearing the buffer and keying any written expression of at most nineteen characters shows nothing until #, and then its value, undefined exactly where an operand does not fit or the arithmetic is; exact for operands up to 79 |
| `Keypad.KeyTwoOperands` | 0851084_eos_lab3/lab3.c:259-321 | Keying clear, two operands up to 79 with A, B, C or D between them, and # shows at the end their sum, their difference, their product, or how often the second goes into the first |
| `Calculator.MixedExpression` | 0851084_eos_lab3/lab3.c:70-110 | 12+3*4-20/3/2 is shown as 21 |
| `Calculator.ProductIsShown` | 0851084_eos_lab3/lab3.c:89-91 | The product of two operands up to 79 |
| `Calculator.QuotientIsShown` | 0851084_eos_lab3/lab3.c:92-94 | The quotient of two operands up to 79, the rest less than the divisor; none for a divisor of 0 |
| `Calculator.SumIsShown` | 0851084_eos_lab3/lab3.c:98-103 | Sum and difference of two operands up to 79 |
| `Calculator.TermTimes` | 0851084_eos_lab3/lab3.c:89-91 | One more factor multiplies a term's value, within the int range |
| `Calculator.TermOver` | 0851084_eos_lab3/lab3.c:92-94 | One more divisor divides it, the rest dropped towards zero; no value for a divisor of 0 or the least int by -1 |
| `Calculator.NumberIsDecimal` | 0851084_eos_lab3/lab3.c:274-276 | Digits added up from the left are the decimal value |
| `Calculator.Calculates` | 0851084_eos_lab3/lab3.c:268-287 | For any operands: the answer is the value of the expression on operands as a char holds them, undefined exactly when an operand does not fit, a divisor is 0 or a result leaves the int range |
| `Calculator.OperandShownExactlyWhen` | 0851084_eos_lab3/lab3.c:274-279 | A single operand is shown as itself if and only if it is at most 79 where char is signed, at most 207 where it is not |
| `Calculator.SmallOperandsAreExact` | 0851084_eos_lab3/lab3.c:268-287 | Operands up to 79 are exact whichever way char is signed |
| `Calculator.FirstAnswerStays` | 0851084_eos_lab3/lab3.c:268-307 | The buffer is not emptied by #: until it is cleared the first answer is repeated, whatever is keyed after it |
| `Calculator.LexSum` | 0851084_eos_lab3/lab3.c:270-284 | The tokeniser turns the text of an expression into its operand and operator codes |
| `Calculator.LexTerm` | 0851084_eos_lab3/lab3.c:270-284 | And the text of a term, after any complete text |
| `Calculator.RunSum` | 0851084_eos_lab3/lab3.c:79-104 | The evaluator on the codes of a sum ends with its value as total and its last operator pending |
| `Calculator.RunTerm` | 0851084_eos_lab3/lab3.c:84-96 | The inner loop on the codes of a term ends with its value |
| `Evaluator.Calculate` | 0851084_eos_lab3/lab3.c:70-110 | The nested loops, from any codes with an = among the operators, compute the run of the reference machine up to it |
| `Evaluator.FinishTerm` | 0851084_eos_lab3/lab3.c:84-96 | The inner loop continues the run to the end of the term, or stops with it at undefined arithmetic |
| `Evaluator.RunStops` | 0851084_eos_lab3/lab3.c:79-104 | Nothing after the first = is looked at |
| `Tokeniser.Tokenise` | 0851084_eos_lab3/lab3.c:270-284 | The loop fills the code buffer with the codes of the text, two for each operator, or meets an operand that does not fit |
| `Tokeniser.CodesPerOperator` | 0851084_eos_lab3/lab3.c:274-283 | The codes are two for each operator |
| `CalculatorSyntax.ReadExactly` | 0851084_eos_lab3/lab3.c:278-278 | An operand survives its char exactly up to the limit |
| `CalculatorSyntax.CharWraps` | 0851084_eos_lab3/lab3.c:278-278 | A char holds an operand's low eight bits, signed or not |
| `CalculatorSyntax.SumReadExactly` | 0851084_eos_lab3/lab3.c:278-278 | An expression whose operands survive keeps its meaning |
| `CalculatorSyntax.QuotientTruncates` | 0851084_eos_lab3/lab3.c:92-94 | The quotient truncates toward zero: the remainder is smaller than the divisor and has the sign of the dividend |
| `Keypad.Pad.Press` | 0851084_eos_lab3/lab3.c:259-316 | One key: the buffer afterwards, and at # the value of what is in it |
| `Keypad.Pad.Session` | 0851084_eos_lab3/lab3.c:259-317 | The main loop: what is shown at each key of any sequence that fits the buffers |
| `Keypad.KeyedText` | 0851084_eos_lab3/lab3.c:263-307 | Clearing and keying a text leaves exactly that text |
| `Keypad.KeyOf` | 0851084_eos_lab3/lab3.c:34-68 | Every digit and operator has a key that stands for it |
| `Keypad.ExpressionHasRoom` | 0851084_eos_lab3/lab3.c:255-284 | An expression of up to nineteen characters, each operand with a digit, fits both buffers |
| `Account.FinalBalance` | 0851084_eos_lab6/server.cpp:100-136 | For any number of threads and any interleaving of their load and store steps in which no P fails: once every line is consumed the balance is the deposits less the withdrawals |
| `Account.FinalBalanceInTotals` | 0851084_eos_lab6/server.cpp:100-136 | That balance is all that was paid in less all that was taken out |
| `Account.BalanceExactlyWhen` | 0851084_eos_lab6/server.cpp:100-136 | For every number f: all runs in which f calls of P fail and every line is consumed end with the balance received if and only if f is 0 |
| `Account.BalanceInvariant` | 0851084_eos_lab6/server.cpp:100-136 | At every point of such a run, balance plus what the threads have still to store is what was received, and every loaded value is still the balance |
| `Account.SemaphoreInvariant` | 0851084_eos_lab6/server.cpp:69-98 | Over every run, semaphore plus threads inside is 1, plus one for each failed P, minus one for each failed V |
| `Account.MutualExclusion` | 0851084_eos_lab6/server.cpp:117-127 | While no P fails, no two threads are between P and V |
| `Account.NoDeadlock` | 0851084_eos_lab6/server.cpp:69-136 | Unless more calls of V than of P failed, some thread can go on without a failure until every line is consumed |
| `Account.NoDeadlockExactlyWhen` | 0851084_eos_lab6/server.cpp:69-136 | While lines are left, some thread can go on without a failure if and only if no more calls of V than of P failed or a line that asks for nothing is next; otherwise the semaphore is 0 with nobody inside |
| `Account.LostUpdate` | 0851084_eos_lab6/server.cpp:116-120 | P's status is ignored: one failed P lets two deposits of 1 end with a balance of 1 and the semaphore at 2 |
| `Account.OwedStep` | 0851084_eos_lab6/server.cpp:114-128 | A step changes balance and owed amounts by what it receives, as long as loaded values are current |
| `Account.Server.Act` | 0851084_eos_lab6/server.cpp:69-136 | One step of a thread or of the accept loop on the shared variables is the step of the machine |
| `Account.Server.Execute` | 0851084_eos_lab6/server.cpp:166-181 | The server under a schedule reaches the state of the machine |
| `Account.Server.P` | 0851084_eos_lab6/server.cpp:69-83 | Takes a unit and returns 0, or fails with -1 and takes none |
| `Account.Server.V` | 0851084_eos_lab6/server.cpp:85-98 | Returns a unit and 0, or fails with -1 |
| `GuessGame.HitExactlyWhen` | 0851084_eos_lab7/guess.cpp:34-51 | The answer is ever guessed if and only if it lies from 1 to N - 1, or is 0 with N below 2; so for N >= 1 it is never N itself |
| `GuessGame.FoundWithin` | 0851084_eos_lab7/guess.cpp:34-51 | Every answer from 1 to N - 1 is guessed within the base-2 logarithm of N, rounded up |
| `GuessGame.BoundIsReached` | 0851084_eos_lab7/guess.cpp:34-51 | Some answer needs that many guesses |
| `GuessGame.SomeGuesses` | 0851084_eos_lab7/guess.cpp:34-51 | With a bound of 100, 37 is guessed after 50 and 25, and 99 seventh |
| `GuessGame.BitsIsLogarithm` | 0851084_eos_lab7/guess.cpp:92-92 | The bound is the least number of doublings of 1 that reach N |
| `GuessGame.MissHalves` | 0851084_eos_lab7/guess.cpp:39-46 | A wrong guess keeps the answer possible and at most half of the other numbers |
| `GuessGame.Hardest` | 0851084_eos_lab7/guess.cpp:39-46 | In any search some number still possible takes all the guesses the bound allows |
| `GuessGame.Beyond` | 0851084_eos_lab7/guess.cpp:39-46 | Below 1 and from N on the guesses never reach the answer |
| `GuessGame.Game.Play` | 0851084_eos_lab7/guess.cpp:34-51 | Both processes taking turns: the guesser exits with the answer, at its first hit, within the bound |
| `GuessGame.Game.TimerHandler` | 0851084_eos_lab7/guess.cpp:34-51 | A tick after an answer halves the bounds toward it, or exits on a hit |
| `GuessGame.Game.Handler` | 0851084_eos_lab7/game.cpp:35-50 | The answer tells whether the guess is right, too large or too small |
| `GuessGame.Game.constructor` | 0851084_eos_lab7/guess.cpp:63-93 | The first guess is half of N, the bounds 1 and N, no answer yet |

## Left out

- NandFlash.Nand.NandAccess: does not cover ranges that start beyond the good bytes, nor what a read of a block beyond the device returns.
- QspiFlash.Controller.QspiAccess: does not cover Winbond and ISSI chips, for which the bank command sends nothing and compares a stale byte, nor the other bits of the configuration register, which a stacked read of length 0 writes back from a variable never set.
- BootWalk.LoadBootImage: does not read the header table from the device, and fallback ends the walk here; the chain that follows it is in module `BootChain`.
- BootPlan: the bytes of the checksum and the signature, caches and the watchdog.
- ImageSearch: reads that fail at one time and work at another, silicon 1.0, whose boot ROM keeps the image address elsewhere, and the choice of flash size by boot mode.
- Calculator: the LCD, seven-segment and LED output, and texts longer than the buffers.
- Evaluator.Calculate: gives no value where C leaves the result undefined, a division by zero or an `int` out of range.
- Account: the parsing of lines, and balances beyond the 32-bit `int`.
- GuessGame: signals and timers beyond their order, negative bounds, and bounds so large that a sum of two guesses leaves the 32-bit `int`.
- Mask shop: sockets, the `show` command and its text in server and checker, the client's and the closing statistics, truncated commands, and requests for cities outside 1 to 9.
- MD5 with byte swapping, which no caller asks for.
- The near copies under `LAB_3`, `LAB_4`, `LAB_5` and `0851084_eos_hw2`, the device drivers, `pcap.c`, `sd.c`, `nor.c` and `rsa.c`: register access and fixed tables.
