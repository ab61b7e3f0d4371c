/** Whole conversations: the session after a sequence of utterances, the
    facts every reachable session keeps, and worked conversations. */
module Conversation {
  import opened Strptime
  import opened Reservations
  import opened Wizard

  /** The session after feeding `inputs` to the wizard one by one, as the
      page reruns its chat handler once per utterance. */
  function Run(s: Session, inputs: seq<string>): Session
    decreases |inputs|
  {
    if inputs == [] then s else Run(Transition(s, inputs[0]), inputs[1..])
  }

  /** Each utterance adds at most two log entries and at most one row, and
      neither the log nor the table ever shrinks. */
  lemma {:induction false} RunGrowth(s: Session, inputs: seq<string>)
    ensures |s.log| <= |Run(s, inputs).log| <= |s.log| + 2 * |inputs|
    ensures |s.store| <= |Run(s, inputs).store| <= |s.store| + |inputs|
    decreases |inputs|
  {
    if inputs != [] {
      RunGrowth(Transition(s, inputs[0]), inputs[1..]);
    }
  }

  /** The utterances of `inputs` that are not empty, in order. */
  function NonEmpty(inputs: seq<string>): (r: seq<string>)
    ensures |r| <= |inputs|
    ensures forall i :: 0 <= i < |r| ==> r[i] != ""
  {
    if inputs == [] then []
    else if inputs[0] == "" then NonEmpty(inputs[1..])
    else [inputs[0]] + NonEmpty(inputs[1..])
  }

  /** Feeding two batches is feeding their concatenation. */
  lemma {:induction false} RunConcat(s: Session, a: seq<string>, b: seq<string>)
    ensures Run(s, a + b) == Run(Run(s, a), b)
    decreases |a|
  {
    if a != [] {
      assert (a + b)[1..] == a[1..] + b;
      RunConcat(Transition(s, a[0]), a[1..], b);
    } else {
      assert a + b == b;
    }
  }

  /** Empty utterances make no difference anywhere in a conversation. */
  lemma {:induction false} RunIgnoresEmpty(s: Session, inputs: seq<string>)
    ensures Run(s, inputs) == Run(s, NonEmpty(inputs))
    decreases |inputs|
  {
    if inputs != [] {
      RunIgnoresEmpty(Transition(s, inputs[0]), inputs[1..]);
      if inputs[0] == "" {
        RunIgnoresEmpty(s, inputs[1..]);
      } else {
        var rest := NonEmpty(inputs[1..]);
        assert ([inputs[0]] + rest)[1..] == rest;
      }
    }
  }

  /** The log only grows, by two entries per non-empty utterance. */
  lemma {:induction false} RunLog(s: Session, inputs: seq<string>)
    ensures |Run(s, inputs).log| == |s.log| + 2 * |NonEmpty(inputs)|
    ensures Run(s, inputs).log[..|s.log|] == s.log
    decreases |inputs|
  {
    if inputs != [] {
      var t := Transition(s, inputs[0]);
      RunLog(t, inputs[1..]);
      assert Run(s, inputs).log[..|s.log|] == Run(t, inputs[1..]).log[..|t.log|][..|s.log|];
    }
  }

  /** The table only grows: the rows there before stay, in place, and ids
      keep increasing. */
  lemma {:induction false} RunStoreAppendOnly(s: Session, inputs: seq<string>)
    ensures |s.store| <= |Run(s, inputs).store|
    ensures Run(s, inputs).store[..|s.store|] == s.store
    ensures IdsIncreasing(s.store) ==> IdsIncreasing(Run(s, inputs).store)
    decreases |inputs|
  {
    if inputs != [] {
      var t := Transition(s, inputs[0]);
      RunStoreAppendOnly(t, inputs[1..]);
      assert t.store[..|s.store|] == s.store;
      assert Run(s, inputs).store[..|s.store|] == Run(t, inputs[1..]).store[..|t.store|][..|s.store|];
    }
  }

  /** A table the wizard can produce: ids increase and every row carries a
      valid date and a valid time. */
  ghost predicate RowsValid(store: Store) {
    && IdsIncreasing(store)
    && forall i :: 0 <= i < |store| ==> ValidDate(store[i].details.date) && ValidTime(store[i].details.time)
  }

  /** What every session the wizard can reach satisfies: the date and time
      columns hold either nothing or a value their check accepted, the time
      step is reached only with a valid date in the draft, and the table is
      one the wizard can produce. */
  ghost predicate Consistent(s: Session) {
    && (s.draft.date == "" || ValidDate(s.draft.date))
    && (s.draft.time == "" || ValidTime(s.draft.time))
    && (s.step == Time ==> ValidDate(s.draft.date))
    && RowsValid(s.store)
  }

  /** A fresh or reset session over a table of valid rows is consistent,
      whatever the session held before. */
  lemma InitialConsistent(s: Session)
    requires RowsValid(s.store)
    ensures Consistent(Initial(s.store)) && Consistent(Reset(s))
  {
  }

  lemma TransitionKeepsConsistent(s: Session, input: string)
    requires Consistent(s)
    ensures Consistent(Transition(s, input))
  {
    var r := Transition(s, input);
    if |r.store| > |s.store| {
      assert r.store[|s.store|].details == r.draft;
    }
  }

  /** Every session reachable from a consistent one is consistent. */
  lemma {:induction false} RunKeepsConsistent(s: Session, inputs: seq<string>)
    requires Consistent(s)
    ensures Consistent(Run(s, inputs))
    decreases |inputs|
  {
    if inputs != [] {
      TransitionKeepsConsistent(s, inputs[0]);
      RunKeepsConsistent(Transition(s, inputs[0]), inputs[1..]);
    }
  }

  /** One utterance is the transition on it followed by the rest. */
  lemma RunCons(s: Session, input: string, rest: seq<string>)
    ensures Run(s, [input] + rest) == Run(Transition(s, input), rest)
  {
    assert ([input] + rest)[1..] == rest;
  }

  /** A free-text answer fills its step's column and moves one step on. */
  lemma FreeTextAnswer(s: Session, input: string)
    requires IsFreeText(s.step) && input != ""
    ensures Transition(s, input).step == Next(s.step) && Transition(s, input).store == s.store
    ensures Transition(s, input).draft == Put(s.draft, FieldOf(s.step), input)
  {
  }

  /** The five free-text answers, given from the name step, fill exactly
      those five columns in order and bring the wizard to the date step. */
  lemma AnswersReachDate(s: Session, name: string, phone: string, email: string, guests: string, seats: string)
    requires s.step == Name
    requires name != "" && phone != "" && email != "" && guests != "" && seats != ""
    ensures var r := Run(s, [name, phone, email, guests, seats]);
      && r.step == Date && r.store == s.store
      && r.draft == s.draft.(name := name, phone := phone, email := email, guests := guests, babySeats := seats)
  {
    var s1 := Transition(s, name);
    FreeTextAnswer(s, name);
    var s2 := Transition(s1, phone);
    FreeTextAnswer(s1, phone);
    var s3 := Transition(s2, email);
    FreeTextAnswer(s2, email);
    var s4 := Transition(s3, guests);
    FreeTextAnswer(s3, guests);
    var s5 := Transition(s4, seats);
    FreeTextAnswer(s4, seats);
    RunCons(s, name, [phone, email, guests, seats]);
    RunCons(s1, phone, [email, guests, seats]);
    RunCons(s2, email, [guests, seats]);
    RunCons(s3, guests, [seats]);
    RunCons(s4, seats, []);
  }

  /** From the date step, a valid date then a valid time save the draft with
      those two columns filled as one new row and return to the start. */
  lemma DateAndTimeSave(s: Session, date: string, time: string)
    requires s.step == Date && ValidDate(date) && ValidTime(time) && date != "" && time != ""
    ensures var r := Run(s, [date, time]);
      && r.step == Start && r.draft == s.draft.(date := date, time := time)
      && r.store == s.store + [Row(NextId(s.store), r.draft)]
      && |r.log| > 0 && r.log[|r.log| - 1] == Message(Assistant, ConfirmReply)
  {
    var s1 := Transition(s, date);
    RunCons(s, date, [time]);
    RunCons(s1, time, []);
  }

  /** A complete pass through the wizard: a cue, five free-text answers, a
      valid date and a valid time save exactly one row holding those seven
      answers, leave them in the draft, and bring the step back to the start
      after sixteen log entries ending in the confirmation. */
  lemma CompleteReservation(s: Session, cue: string, name: string, phone: string, email: string,
                            guests: string, seats: string, date: string, time: string)
    requires s.step == Start && WantsToReserve(cue) && cue != ""
    requires name != "" && phone != "" && email != "" && guests != "" && seats != ""
    requires ValidDate(date) && ValidTime(time)
    ensures var r := Run(s, [cue, name, phone, email, guests, seats, date, time]);
      && r.step == Start
      && r.draft == Details(name, phone, email, guests, seats, date, time)
      && r.store == s.store + [Row(NextId(s.store), Details(name, phone, email, guests, seats, date, time))]
      && |r.log| == |s.log| + 16 && r.log[..|s.log|] == s.log
      && r.log[|r.log| - 1] == Message(Assistant, ConfirmReply)
  {
    var inputs := [cue, name, phone, email, guests, seats, date, time];
    assert |Run(s, inputs).log| == |s.log| + 16 && Run(s, inputs).log[..|s.log|] == s.log by {
      AllNonEmpty(inputs);
      RunLog(s, inputs);
    }
    var answers := [name, phone, email, guests, seats];
    var s1 := Transition(s, cue);
    assert Run(s, inputs) == Run(Run(s1, answers), [date, time]) by {
      assert inputs == [cue] + (answers + [date, time]);
      RunCons(s, cue, answers + [date, time]);
      RunConcat(s1, answers, [date, time]);
    }
    assert s1.step == Name && s1.store == s.store && s1.draft == s.draft;
    AnswersReachDate(s1, name, phone, email, guests, seats);
    DateAndTimeSave(Run(s1, answers), date, time);
  }

  /** A batch with no empty utterance is kept whole by `NonEmpty`. */
  lemma {:induction false} AllNonEmpty(inputs: seq<string>)
    requires forall i :: 0 <= i < |inputs| ==> inputs[i] != ""
    ensures NonEmpty(inputs) == inputs
    decreases |inputs|
  {
    if inputs != [] {
      AllNonEmpty(inputs[1..]);
      assert inputs == [inputs[0]] + inputs[1..];
    }
  }

  /** The cue, date and time of the sample conversation below pass their checks. */
  lemma AnnAnswersAccepted()
    ensures WantsToReserve("yes") && ValidDate("2024-03-10") && ValidTime("19:30")
  {
    Text.LowerIs("yes", "yes");
    AcceptedDateExamples();
    TimeExamples();
  }

  /** A sample conversation: "yes", then Ann's details, then
      2024-03-10 at 19:30, starting from a fresh session, saves exactly that
      reservation. */
  lemma AnnReservation(store: Store)
    ensures var r := Run(Initial(store), ["yes", "Ann", "555-1234", "ann@x.com", "2", "1", "2024-03-10", "19:30"]);
      && r.step == Start
      && r.store == store + [Row(NextId(store), Details("Ann", "555-1234", "ann@x.com", "2", "1", "2024-03-10", "19:30"))]
      && |r.log| == 16 && r.log[15] == Message(Assistant, ConfirmReply)
  {
    var s := Initial(store);
    assert s.step == Start;
    AnnAnswersAccepted();
    CompleteReservation(s, "yes", "Ann", "555-1234", "ann@x.com", "2", "1", "2024-03-10", "19:30");
  }

  /** "10 March" fails the date check: the step stays at the date, draft and
      table are untouched, and the user is asked again. */
  lemma TenMarchRejected(s: Session, input: string)
    requires s.step == Date && input == "10 March"
    ensures Transition(s, input) == s.(log := Exchange(s.log, input, BadDateReply))
  {
    assert input[4] == 'a';
  }
}
