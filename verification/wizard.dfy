/** The reservation wizard: a session holding the current step, the draft
    record, the chat log and the reservations table, and the transition one
    user utterance makes on it. Every step writes at most one column of the
    draft, appends the utterance and exactly one reply to the log, and only a
    successful time step adds a row to the table. */
module Wizard {
  import opened Text
  import opened Strptime
  import opened Reservations

  /** The step the wizard is at, in the order the fields are collected. */
  datatype Step = Start | Name | Phone | Email | Guests | BabySeats | Date | Time

  datatype Role = User | Assistant

  /** One chat-log entry. */
  datatype Message = Message(role: Role, content: string)

  datatype Session = Session(step: Step, draft: Details, log: seq<Message>, store: Store)

  /** Position of a step in the collection order. */
  function Rank(step: Step): nat {
    match step
    case Start => 0
    case Name => 1
    case Phone => 2
    case Email => 3
    case Guests => 4
    case BabySeats => 5
    case Date => 6
    case Time => 7
  }

  /** The step a successful utterance moves to: the next one in the order,
      wrapping from the time step back to the start. */
  function Next(step: Step): (n: Step)
    ensures Rank(n) == (Rank(step) + 1) % 8
  {
    match step
    case Start => Name
    case Name => Phone
    case Phone => Email
    case Email => Guests
    case Guests => BabySeats
    case BabySeats => Date
    case Date => Time
    case Time => Start
  }

  /** The column each step after the start collects. */
  function FieldOf(step: Step): Field
    requires step != Start
  {
    match step
    case Name => NameField
    case Phone => PhoneField
    case Email => EmailField
    case Guests => GuestsField
    case BabySeats => BabySeatsField
    case Date => DateField
    case Time => TimeField
  }

  /** The steps whose input is stored without any check. */
  predicate IsFreeText(step: Step) {
    step in {Name, Phone, Email, Guests, BabySeats}
  }

  /* ---------- assistant replies ---------- */

  const IntroReply := "hi,my name is Dani. I am the assistant of fast food restuarant.and I am here to collect the reservation details. Do want to reserve table in our restaurant?"
  const AskNameReply := "Sure, I'd be happy to help with your reservation. First, can I have your name?"
  const AskEmailReply := "Got it! Could you please provide your email address?"
  const AskGuestsReply := "Great! How many guests will be attending?"
  const AskBabySeatsReply := "Understood. How many baby seats do you need?"
  const AskDateReply := "What date would you like to make the reservation for?"
  const AskTimeReply := "Got it. What time would you like the reservation for?"
  const BadDateReply := "Please enter a valid date in YYYY-MM-DD format."
  const BadTimeReply := "Please enter a valid time in HH:MM format."
  const ConfirmReply := "Your reservation has been confirmed! If you need anything else, just let me know."

  /** The reply to a name, which echoes it. The apostrophe is kept as the
      three characters U+00E2 U+20AC U+2122 that the source text holds. */
  function AskPhoneReply(name: string): string {
    "Nice to meet you, " + name + ". What\U{00E2}\U{20AC}\U{2122}s your phone number?"
  }

  /** The reply to a free-text step's input. */
  function FreeTextReply(step: Step, input: string): string
    requires IsFreeText(step)
  {
    match step
    case Name => AskPhoneReply(input)
    case Phone => AskEmailReply
    case Email => AskGuestsReply
    case Guests => AskBabySeatsReply
    case BabySeats => AskDateReply
  }

  /** `log` extended by the user's utterance and then the assistant's reply. */
  function Exchange(log: seq<Message>, input: string, reply: string): (r: seq<Message>)
    ensures |r| == |log| + 2 && r[..|log|] == log
    ensures r[|log|] == Message(User, input) && r[|log| + 1] == Message(Assistant, reply)
  {
    log + [Message(User, input), Message(Assistant, reply)]
  }

  /* ---------- the steps ---------- */

  /** The consent check of the start step. Three cues are looked for in the
      lower-cased input; "sure" is looked for in the input as typed. */
  predicate WantsToReserve(input: string) {
    var low := Lower(input);
    Contains(low, "reserve") || Contains(low, "reservation") || Contains(low, "yes") || Contains(input, "sure")
  }

  /** The consent check holds exactly when "reserve", "reservation" or "yes"
      occurs somewhere in the lower-cased input, or "sure" occurs somewhere in
      the input as typed. */
  lemma WantsToReserveExact(input: string)
    ensures WantsToReserve(input) <==>
      ((exists i :: OccursAt("reserve", Lower(input), i)) ||
       (exists i :: OccursAt("reservation", Lower(input), i)) ||
       (exists i :: OccursAt("yes", Lower(input), i)) ||
       (exists i :: OccursAt("sure", input, i)))
  {
    assert Contains(Lower(input), "reserve") <==> exists i :: OccursAt("reserve", Lower(input), i);
    assert Contains(Lower(input), "reservation") <==> exists i :: OccursAt("reservation", Lower(input), i);
    assert Contains(Lower(input), "yes") <==> exists i :: OccursAt("yes", Lower(input), i);
  }

  /** The start step: moves to the name step exactly when the input carries
      a cue, and never touches the draft or the table. */
  function OnStart(s: Session, input: string): (r: Session)
    requires s.step == Start
    ensures r.draft == s.draft && r.store == s.store
    ensures r.step == Name <==> WantsToReserve(input)
    ensures r.step == Start <==> !WantsToReserve(input)
    ensures r.log == Exchange(s.log, input, if r.step == Name then AskNameReply else IntroReply)
  {
    if WantsToReserve(input) then
      s.(log := Exchange(s.log, input, AskNameReply), step := Name)
    else
      s.(log := Exchange(s.log, input, IntroReply))
  }

  /** The name, phone, email, guests and baby-seats steps: the input as typed
      becomes that step's column, no other column changes, and the wizard
      moves to the next step. */
  function OnFreeText(s: Session, input: string): (r: Session)
    requires IsFreeText(s.step)
    ensures Get(r.draft, FieldOf(s.step)) == input
    ensures forall g :: g != FieldOf(s.step) ==> Get(r.draft, g) == Get(s.draft, g)
    ensures Rank(r.step) == Rank(s.step) + 1
    ensures r.store == s.store
    ensures r.log == Exchange(s.log, input, FreeTextReply(s.step, input))
  {
    s.(draft := Put(s.draft, FieldOf(s.step), input),
       log := Exchange(s.log, input, FreeTextReply(s.step, input)),
       step := Next(s.step))
  }

  /** The date step: a valid date becomes the date column and the wizard
      moves to the time step; anything else leaves step, draft and table as
      they were and asks again. */
  function OnDate(s: Session, input: string): (r: Session)
    requires s.step == Date
    ensures r.store == s.store
    ensures ValidDate(input) ==> r.step == Time && r.draft == Put(s.draft, DateField, input)
    ensures !ValidDate(input) ==> r.step == Date && r.draft == s.draft
    ensures r.log == Exchange(s.log, input, if ValidDate(input) then AskTimeReply else BadDateReply)
  {
    if ValidDate(input) then
      s.(draft := s.draft.(date := input), log := Exchange(s.log, input, AskTimeReply), step := Time)
    else
      s.(log := Exchange(s.log, input, BadDateReply))
  }

  /** The time step: a valid time becomes the time column, the completed draft
      is saved as exactly one new row, and the step (only the step) returns to
      the start; anything else leaves step, draft and table as they were. */
  function OnTime(s: Session, input: string): (r: Session)
    requires s.step == Time
    ensures ValidTime(input) ==> r.step == Start && r.draft == Put(s.draft, TimeField, input)
    ensures ValidTime(input) ==> |r.store| == |s.store| + 1 && r.store[..|s.store|] == s.store
    ensures ValidTime(input) ==> r.store[|s.store|] == Row(NextId(s.store), r.draft)
    ensures !ValidTime(input) ==> r.step == Time && r.draft == s.draft && r.store == s.store
    ensures r.log == Exchange(s.log, input, if ValidTime(input) then ConfirmReply else BadTimeReply)
  {
    if ValidTime(input) then
      var d := s.draft.(time := input);
      s.(draft := d, store := Insert(s.store, d), log := Exchange(s.log, input, ConfirmReply), step := Start)
    else
      s.(log := Exchange(s.log, input, BadTimeReply))
  }

  /** One utterance from the chat input. An empty one is ignored; any other
      grows the log by the utterance and one reply, writes at most the
      current step's column, either holds the step or advances it by one,
      and grows the table only on a valid time. */
  function Transition(s: Session, input: string): (r: Session)
    ensures input == "" ==> r == s
    ensures input != "" ==> |r.log| == |s.log| + 2 && r.log[..|s.log|] == s.log
    ensures input != "" ==> r.log[|s.log|] == Message(User, input) && r.log[|s.log| + 1].role == Assistant
    ensures forall g :: (s.step == Start || g != FieldOf(s.step)) ==> Get(r.draft, g) == Get(s.draft, g)
    ensures r.step == s.step || r.step == Next(s.step)
    ensures |r.store| > |s.store| <==> s.step == Time && input != "" && ValidTime(input)
    ensures |r.store| > |s.store| ==> r.store == s.store + [Row(NextId(s.store), r.draft)]
    ensures |r.store| <= |s.store| ==> r.store == s.store
  {
    if input == "" then s
    else
      match s.step
      case Start => OnStart(s, input)
      case Date => OnDate(s, input)
      case Time =>
        var r := OnTime(s, input);
        assert ValidTime(input) ==> r.store == r.store[..|s.store|] + [r.store[|s.store|]];
        r
      case _ => OnFreeText(s, input)
  }

  /** `reset_reservation`: every column empty, back to the start step, log
      cleared; the table is not touched. */
  function Reset(s: Session): (r: Session)
    ensures r.step == Start && r.log == [] && r.store == s.store
    ensures forall f :: Get(r.draft, f) == ""
  {
    Session(Start, Blank, [], s.store)
  }

  /** Resetting twice is resetting once. */
  lemma ResetIdempotent(s: Session)
    ensures Reset(Reset(s)) == Reset(s)
  {
  }

  /** The session a fresh page load starts from, over an existing table. */
  function Initial(store: Store): (r: Session)
    ensures r.step == Start && r.log == [] && r.store == store
    ensures forall f :: Get(r.draft, f) == ""
  {
    Session(Start, Blank, [], store)
  }

  /** A fresh session is exactly what a reset leaves behind. */
  lemma InitialIsReset(s: Session)
    ensures Initial(s.store) == Reset(s)
  {
  }

  /** "sure" counts only when typed in lower case: "Sure" carries no cue. */
  lemma SureIsCaseSensitive()
    ensures WantsToReserve("sure") && !WantsToReserve("Sure")
  {
    LowerIs("Sure", "sure");
    AbsentWithoutFirstChar("sure", "yes");
    AbsentWithoutFirstChar("Sure", "sure");
  }

  /** A cue that is the whole lower-cased input is found. */
  lemma WholeInputCue(input: string, cue: string)
    requires Lower(input) == cue && cue in ["reserve", "reservation", "yes"]
    ensures WantsToReserve(input)
  {
  }

  /** The other cues count in any case. */
  lemma OtherCuesIgnoreCase()
    ensures WantsToReserve("YES") && WantsToReserve("Reservation")
  {
    LowerIs("YES", "yes");
    WholeInputCue("YES", "yes");
    LowerIs("Reservation", "reservation");
    WholeInputCue("Reservation", "reservation");
  }

  /** None of the four cues occurs in "no thanks", in either case. */
  lemma NoThanksHasNoCue(input: string)
    requires input == "no thanks"
    ensures Lower(input) == input
    ensures !Contains(input, "reserve") && !Contains(input, "reservation")
    ensures !Contains(input, "yes") && !Contains(input, "sure")
  {
    LowerIs(input, input);
    AbsentWithoutFirstChar(input, "reserve");
    AbsentWithoutFirstChar(input, "reservation");
    AbsentWithoutFirstChar(input, "yes");
    AbsentWithoutFirstChar(input, "sure");
  }

  /** "no thanks" carries no cue: at the start step it draws the
      introduction again and nothing else changes. */
  lemma NoThanksStaysAtStart(s: Session, input: string)
    requires s.step == Start && input == "no thanks"
    ensures Transition(s, input) == s.(log := Exchange(s.log, input, IntroReply))
  {
    NoThanksHasNoCue(input);
  }
}
