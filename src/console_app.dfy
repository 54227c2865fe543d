/**
 * The console copy of the score table: the module-level `numbers_dict`, the
 * start-up sequence that merges the save file in and then clears every value,
 * and `process_input` with its commands `exit`, `quit`, `show` and `copy`.
 */
module ConsoleApp {
  import opened Wrappers
  import opened Text
  import opened Seats
  import opened CodeParser
  import opened Store
  import opened Persistence

  /** The keys of the `numbers_dict` literal, in the order written. */
  const LiteralSeats: seq<int> :=
    [1, 2, 5, 8, 10, 11, 12, 13, 14, 15, 17, 18, 19, 20]
    + [23, 24, 25, 26, 27, 28, 30, 31, 32, 33, 34, 35, 36, 37, 38]
    + [40, 41, 42, 43, 44, 45, 46, 47, 49, 50, 51, 52, 53]
    + [55, 56, 57, 58, 59, 60, 61, 62, 63, 64]

  /** The `numbers_dict` literal: the same 52 seats as the web copy's list, none
      of them scored. */
  function InitialNumbers(): (m: Table)
    ensures m.Keys == ValidKeySet
    ensures forall k :: k in m ==> m[k] == None
  {
    assert LiteralSeats == ValidKeys;
    Unset(set k | k in LiteralSeats)
  }

  /** `load_dict()`: the table in the save file, or `None` when there is no file
      or a member name is not an integer. */
  function LoadFile(file: Option<JsonObject>): Option<Table>
  {
    if file.Some? then Load(file.value) else None
  }

  /** The seats the save file brings in. */
  function LoadedSeats(file: Option<JsonObject>): set<int>
  {
    if LoadFile(file).Some? then LoadFile(file).value.Keys else {}
  }

  /** What one line of input leads to. */
  datatype Reply =
    | Exit                        // `exit` or `quit`
    | Show(lines: seq<string>)    // `show`: one line per seat
    | NothingToCopy               // `copy` with every value empty
    | Copy(text: string)          // `copy`: the text handed to the clipboard
    | Entered(outcome: Outcome)   // anything else is read as a code

  /** `f"{k:02d} -> {v}"`, or `f"{k:02d} -> -"` for an unscored seat. */
  function ShowLine(k: int, v: Option<int>): (line: string)
    ensures var n := |Format02(k)|;
      && |line| > n + 4
      && ParseInt(line[..n]) == Some(k)
      && line[n..n + 4] == " -> "
      && (line[n + 4..] == "-" <==> v == None)
      && (v.Some? ==> ParseInt(line[n + 4..]) == v)
  {
    var key := Format02(k);
    var value := if v.Some? then IntToString(v.value) else "-";
    var line := key + " -> " + value;
    assert line[..|key|] == key && line[|key|..|key| + 4] == " -> " && line[|key| + 4..] == value;
    ShownValue(v);
    line
  }

  lemma ShownValue(v: Option<int>)
    ensures v.Some? ==> ParseInt(IntToString(v.value)) == v && IntToString(v.value) != "-"
  {
    if v.Some? {
      IntToStringRoundTrip(v.value);
    }
  }

  /** The `show` listing: one line per seat, in ascending seat order. */
  function ShowLines(m: Table): (lines: seq<string>)
    ensures |lines| == |m|
    ensures forall i :: 0 <= i < |lines| ==>
      var k := SortedKeys(m.Keys)[i]; k in m && lines[i] == ShowLine(k, m[k])
  {
    var order := SortedKeys(m.Keys);
    seq(|order|, i requires 0 <= i < |order| => ShowLine(order[i], m[order[i]]))
  }

  /** `process_input(s)` as a function of the table before the call. */
  function Respond(m: Table, s: string): (r: Reply)
  {
    var t := Strip(s);
    var cmd := Lower(t);
    if cmd == "exit" || cmd == "quit" then Exit
    else if cmd == "show" then Show(ShowLines(m))
    else if cmd == "copy" then
      var values := CopyList(m);
      if AllEmpty(values) then NothingToCopy else Copy(CopyText(values))
    else Entered(Decide(t, m.Keys))
  }

  /** The exit words are matched in any letter case, whatever blanks surround them. */
  lemma ExitWords(m: Table, pre: string, word: string, post: string)
    requires AllSpace(pre) && AllSpace(post)
    requires Lower(word) == "exit" || Lower(word) == "quit"
    ensures Respond(m, pre + word + post) == Exit
  {
    assert !IsSpace(word[0]) && !IsSpace(word[|word| - 1]);
    StripPadded(pre, word, post);
  }

  /** A line of digits is never taken for a command: the commands are tried
      first, but a code always reaches the validation. */
  lemma CodesAreNotCommands(m: Table, s: string)
    requires AllDigits(Strip(s))
    ensures Respond(m, s) == Entered(Decide(Strip(s), m.Keys))
  {
    var t := Strip(s);
    assert Lower(t) == t;
    if t != [] {
      assert IsDigit(t[0]);
    }
  }

  /** `copy` has nothing to copy exactly when no seat is scored; otherwise the
      copied text splits back, line by line, into the value list. */
  lemma CopyReply(m: Table, s: string)
    requires Lower(Strip(s)) == "copy"
    ensures Respond(m, s) == NothingToCopy <==> FilledCount(m) == 0
    ensures Respond(m, s).Copy? ==>
      Split(Respond(m, s).text, '\n') == CopyList(m)
  {
    var order := SortedKeys(m.Keys);
    AllEmptyIffNothingFilled(m, order);
    if Respond(m, s).Copy? {
      CopyTextLines(m, order);
    }
  }

  /** Unlike the web copy, the console accepts any seat the table holds, so a
      seat brought in by the save file can be scored. */
  lemma LoadedSeatAccepted(m: Table)
    requires 3 in m
    ensures Decide("0325", m.Keys) == Stored(3, 25)
  {
    assert "0325"[..2] == "03" && "0325"[2..] == "25";
  }

  /** The start-up loop `for k in list(numbers_dict.keys()): numbers_dict[k] = None`. */
  method ResetAll(table: Table) returns (cleared: Table)
    ensures cleared == Unset(table.Keys)
  {
    cleared := table;
    var pending := table.Keys;
    while pending != {}
      invariant cleared.Keys == table.Keys
      invariant pending <= table.Keys
      invariant forall k :: k in cleared && k !in pending ==> cleared[k] == None
      decreases pending
    {
      if forall y :: y !in pending {
        assert false;
      }
      var k :| k in pending;
      cleared := cleared[k := None];
      pending := pending - {k};
    }
    SameTable(cleared, Unset(table.Keys), SortedKeys(table.Keys));
  }

  /** The state of the console program. */
  class ScoreConsole {
    /** The module-level `numbers_dict`. */
    var numbers: Table
    /** Start-up: merge the loaded table into the literal when it is non-empty,
        then set every value back to `None`. */
    constructor Startup(file: Option<JsonObject>)
      ensures numbers.Keys == ValidKeySet + LoadedSeats(file)
      ensures forall k :: k in numbers ==> numbers[k] == None
    {
      var table := InitialNumbers();
      var loaded := LoadFile(file);
      if loaded.Some? && loaded.value != map[] {
        table := table + loaded.value;
      }
      assert table.Keys == ValidKeySet + LoadedSeats(file);
      table := ResetAll(table);
      numbers := table;
    }

    /** The part of `process_input` after the commands: validate the code, check
        the seat against the table's keys, then store. */
    method Enter(t: string) returns (o: Outcome)
      modifies this
      ensures o == Decide(t, old(numbers).Keys)
      ensures numbers == Apply(old(numbers), o)
    {
      var code := Parse(t);
      if code.None? {
        return BadFormat;
      }
      if code.value.seat !in numbers {
        return UnknownSeat(code.value.seat);
      }
      numbers := numbers[code.value.seat := Some(code.value.score)];
      return Stored(code.value.seat, code.value.score);
    }

    /** `process_input(s)`: returns `"exit"` for the exit words and `None` for
        everything else; only a valid code changes the table. */
    method ProcessInput(s: string) returns (ret: Option<string>, reply: Reply)
      modifies this
      ensures reply == Respond(old(numbers), s)
      ensures ret == (if reply.Exit? then Some("exit") else None)
      ensures numbers == if reply.Entered? then Apply(old(numbers), reply.outcome) else old(numbers)
      ensures numbers.Keys == old(numbers).Keys
    {
      var t := Strip(s);
      var cmd := Lower(t);
      if cmd == "exit" || cmd == "quit" {
        return Some("exit"), Exit;
      }
      if cmd == "show" {
        return None, Show(ShowLines(numbers));
      }
      if cmd == "copy" {
        var values := CopyList(numbers);
        if AllEmpty(values) {
          return None, NothingToCopy;
        }
        return None, Copy(CopyText(values));
      }
      var outcome := Enter(t);
      return None, Entered(outcome);
    }
  }
}
