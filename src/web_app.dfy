/**
 * The web copy of the score table: the session's dictionary over the 52 valid
 * seats, the submit form, the clear button, the copy button, the counters and
 * the quick-view grid.
 */
module WebApp {
  import opened Wrappers
  import opened Text
  import opened Seats
  import opened CodeParser
  import opened Store
  import opened JsEscape
  import opened Grid

  /** `initialize_dict()`: every valid seat, none of them scored. */
  function InitialTable(): (m: Table)
    ensures m.Keys == ValidKeySet
    ensures forall k :: k in m ==> m[k] == None
    ensures FilledCount(m) == 0
  {
    var m := Unset(ValidKeySet);
    assert Filled(m) == {};
    m
  }

  /** The body of the template literal the copy button hands to the clipboard,
      or `None` when the button is disabled because nothing is scored. The
      values follow `sorted(VALID_KEYS)`, which is the order of the table's own
      keys since the session table covers exactly the valid seats. */
  function CopyScript(m: Table): (r: Option<string>)
    requires m.Keys == ValidKeySet
    ensures r == None <==> FilledCount(m) == 0
    ensures r.Some? ==> TemplateValue(r.value) == Some(CopyText(CopyList(m)))
  {
    var vals := CopyList(m);
    AllEmptyIffNothingFilled(m, SortedKeys(m.Keys));
    if AllEmpty(vals) then None
    else
      JoinWithout(vals, '\n', '\r');
      TemplateValueOfEscape(CopyText(vals));
      Some(EscapeTemplate(CopyText(vals)))
  }

  /** The copy list of the session table walks the seats in the order of the
      list as written. */
  lemma CopyListFollowsList(m: Table)
    requires m.Keys == ValidKeySet
    ensures CopyList(m) == ExportValues(m, ValidKeys)
  {
    SortedValidKeys();
  }

  /** The three counters: total, filled and unfilled seats. */
  function Stats(m: Table): (s: (nat, nat, nat))
    requires m.Keys == ValidKeySet
    ensures s.0 == 52 && s.1 == FilledCount(m)
    ensures s.2 == |set k | k in m && m[k] == None|
    ensures s.1 + s.2 == s.0
  {
    ValidKeysShape();
    ValidKeySetSize();
    FilledCountBounds(m);
    (|ValidKeys|, FilledCount(m), |ValidKeys| - FilledCount(m))
  }

  /** Input made only of whitespace survives the empty-input test but strips
      down to nothing, so it is a format error. */
  lemma BlankInputRejected(s: string, seats: set<int>)
    requires AllSpace(s)
    ensures Decide(Strip(s), seats) == BadFormat
  {
    assert Strip(s) == [] by {
      StripPadded(s, [], []);
      assert s + [] + [] == s;
    }
    assert !WellFormed([]);
  }

  /** `1025` stores score 25 for seat 10. */
  lemma SubmitFourDigits()
    ensures Decide("1025", ValidKeySet) == Stored(10, 25)
  {
    ParseFourDigits();
    assert ValidKeys[4] == 10;
  }

  /** `45123` stores score 123 for seat 45. */
  lemma SubmitFiveDigits()
    ensures Decide("45123", ValidKeySet) == Stored(45, 123)
  {
    ParseFiveDigits();
    assert ValidKeys[34] == 45;
  }

  /** `0325` names seat 3, which is not in the list. */
  lemma SubmitUnknownSeat()
    ensures Decide("0325", ValidKeySet) == UnknownSeat(3)
  {
    assert Parse("0325") == Some(Code(3, 25)) by {
      assert "0325"[..2] == "03" && "0325"[2..] == "25";
    }
    NotListedBetween(3, 2);
  }

  /** The session state of one browser tab. */
  class Scoreboard {
    /** `st.session_state.numbers_dict`. */
    var scores: Table
    /** The table covers exactly the valid seats. */
    ghost predicate Valid()
      reads this
    {
      scores.Keys == ValidKeySet
    }

    /** `auto_clear_on_startup()`: a new session starts cleared. */
    constructor ()
      ensures Valid()
      ensures scores == InitialTable()
    {
      scores := map[];
      new;
      Clear();
    }

    /** The submit block: empty input does nothing; otherwise the stripped code
        is checked and, when it names a valid seat, stored. */
    method Submit(userInput: string) returns (o: Option<Outcome>)
      requires Valid()
      modifies this
      ensures Valid()
      ensures userInput == "" ==> o == None
      ensures userInput != "" ==> o == Some(Decide(Strip(userInput), ValidKeySet))
      ensures scores == if o.Some? then Apply(old(scores), o.value) else old(scores)
    {
      if userInput == "" {
        return None;
      }
      var t := Strip(userInput);
      var code := Parse(t);
      if code.None? {
        o := Some(BadFormat);
      } else if code.value.seat !in ValidKeySet {
        o := Some(UnknownSeat(code.value.seat));
      } else {
        scores := scores[code.value.seat := Some(code.value.score)];
        o := Some(Stored(code.value.seat, code.value.score));
      }
    }

    /** The clear button: back to the initial table. */
    method Clear()
      modifies this
      ensures Valid()
      ensures scores == InitialTable()
    {
      var m := InitialTable();
      scores := m;
    }

    /** The quick-view grid over the seats in ascending order. */
    method GridView() returns (rows: seq<seq<string>>)
      requires Valid()
      ensures Flatten(rows) == Labels(scores, SortedKeys(ValidKeySet))
      ensures Chunked(rows, ColsPerRow)
    {
      rows := GridRows(scores, SortedKeys(ValidKeySet));
    }
  }
}
