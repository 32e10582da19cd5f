/** The four onboarding steps and `main`: each step reads answers from the input
    lines, re-prompts until it gets an acceptable one, and writes its own fields
    of the shared `UserProfile`.

    Input is a finite sequence of lines and a step starts reading at position
    `from`; it reports the position of the first line it left unread. Reading
    past the end yields "" (what `getline` leaves in the string at end of
    input). The source loops forever once no acceptable answer can come; the
    model reports that as `Exhausted`. */
module Onboarding {
  import opened Wrappers
  import opened Text
  import opened Choices
  import opened Search
  import opened Catalogs

  /** The eight answers a profile holds, as one value. */
  datatype Answers = Answers(
    university: string, studentId: string, major: string, routine: string,
    studyHabits: seq<string>, interests: seq<string>, lifestyle: seq<string>,
    premium: bool)

  /** A profile nobody has answered yet. */
  const Blank: Answers := Answers([], [], [], [], [], [], [], false)

  /** `UserProfile`: filled in place, field by field, by the steps. */
  class UserProfile {
    var university: string
    var studentId: string
    var major: string
    var routine: string
    var studyHabits: seq<string>
    var interests: seq<string>
    var lifestyle: seq<string>
    var premium: bool

    /** The answers currently stored. */
    function Snapshot(): Answers
      reads this
    {
      Answers(university, studentId, major, routine, studyHabits, interests, lifestyle, premium)
    }

    constructor ()
      ensures Snapshot() == Blank
    {
      university, studentId, major, routine := [], [], [], [];
      studyHabits, interests, lifestyle := [], [], [];
      premium := false;
    }
  }

  // ---------------------------------------------------------------------------
  // Reading lines
  // ---------------------------------------------------------------------------

  /** The `k`-th line, or "" past the end of input. */
  function LineAt(lines: seq<string>, k: nat): (r: string)
    ensures k < |lines| ==> r == lines[k]
    ensures r == [] || r in lines
  {
    if k < |lines| then lines[k] else []
  }

  /** The position of the first line from `from` on that `accept` takes. */
  function FirstAccepted(lines: seq<string>, from: nat, accept: string -> bool): (r: Option<nat>)
    ensures r.Some? ==> from <= r.value < |lines| && accept(lines[r.value])
    decreases |lines| - from
  {
    if from >= |lines| then None
    else if accept(lines[from]) then Some(from)
    else FirstAccepted(lines, from + 1, accept)
  }

  /** Every line before the accepted one was rejected (and answered with a
      re-prompt), and nothing is accepted exactly when every remaining line is
      rejected. */
  lemma {:induction false} FirstAcceptedIsFirst(lines: seq<string>, from: nat, accept: string -> bool)
    ensures var r := FirstAccepted(lines, from, accept);
      && (r.Some? ==> forall j :: from <= j < r.value ==> !accept(lines[j]))
      && (r.None? <==> forall j :: from <= j < |lines| ==> !accept(lines[j]))
    decreases |lines| - from
  {
    if from < |lines| && !accept(lines[from]) {
      FirstAcceptedIsFirst(lines, from + 1, accept);
    }
  }

  /** The answer a `while (true)` re-prompt loop ends with: the first accepted
      line and the position after it. */
  function Prompt(lines: seq<string>, from: nat, accept: string -> bool): (r: Option<Reply<string>>)
    ensures r.Some? ==> from < r.value.next <= |lines| && accept(r.value.value)
    ensures r.Some? ==> r.value.value == lines[r.value.next - 1]
  {
    match FirstAccepted(lines, from, accept)
    case Some(k) => Some(Reply(lines[k], k + 1))
    case None => None
  }

  /** Once the loop has rejected `lines[from..k]` and accepts `lines[k]`, that
      is the answer `Prompt` describes. */
  lemma {:induction false} PromptAt(lines: seq<string>, from: nat, accept: string -> bool, k: nat)
    requires from <= k < |lines| && accept(lines[k])
    requires forall j :: from <= j < k ==> !accept(lines[j])
    ensures FirstAccepted(lines, from, accept) == Some(k)
    ensures Prompt(lines, from, accept) == Some(Reply(lines[k], k + 1))
    decreases k - from
  {
    if from < k {
      PromptAt(lines, from + 1, accept, k);
    }
  }

  // ---------------------------------------------------------------------------
  // Step 1: selectUniversity
  // ---------------------------------------------------------------------------

  /** The university `selectUniversity` ends up with, and where it stops
      reading. One round reads a query; with no match it asks for a new query,
      otherwise it reads a choice: "r", a non-number or a number outside the
      match list starts a new round, a number in range selects that match. */
  function UniversityChoice(catalog: seq<string>, lines: seq<string>, from: nat): (r: Option<Reply<string>>)
    ensures r.Some? ==> r.value.value in catalog && from + 2 <= r.value.next <= |lines|
    decreases |lines| - from
  {
    if from >= |lines| then None
    else
      var matches := Matches(catalog, lines[from]);
      if matches == [] then UniversityChoice(catalog, lines, from + 1)
      else
        var choice := LineAt(lines, from + 1);
        if choice == "r" then UniversityChoice(catalog, lines, from + 2)
        else match Stoi(choice)
          case Some(idx) =>
            if 1 <= idx <= |matches| then Some(Reply(matches[idx - 1], from + 2))
            else UniversityChoice(catalog, lines, from + 2)
          case None => UniversityChoice(catalog, lines, from + 2)
  }

  /** A round that selects `u`: the query has matches, and the choice is a
      number `idx` in range with `u == matches[idx - 1]`. */
  predicate Selects(catalog: seq<string>, query: string, choice: string, u: string)
  {
    var matches := Matches(catalog, query);
    choice != "r" &&
    match Stoi(choice)
    case Some(idx) => 1 <= idx <= |matches| && u == matches[idx - 1]
    case None => false
  }

  /** The university is only ever `matches[idx - 1]` for the number `idx` read
      right after the query that produced `matches`, and the step stops reading
      right after that number. */
  lemma {:induction false} UniversityChoiceSelects(catalog: seq<string>, lines: seq<string>, from: nat)
    requires UniversityChoice(catalog, lines, from).Some?
    ensures var r := UniversityChoice(catalog, lines, from).value;
      exists i :: from <= i && i + 2 <= |lines| && Selects(catalog, lines[i], lines[i + 1], r.value) && r.next == i + 2
    decreases |lines| - from
  {
    var r := UniversityChoice(catalog, lines, from).value;
    if Matches(catalog, lines[from]) == [] {
      UniversityChoiceSelects(catalog, lines, from + 1);
    } else if Selects(catalog, lines[from], LineAt(lines, from + 1), r.value) {
      assert from + 2 <= |lines|;
      assert Selects(catalog, lines[from], lines[from + 1], r.value);
    } else {
      assert UniversityChoice(catalog, lines, from) == UniversityChoice(catalog, lines, from + 2);
      UniversityChoiceSelects(catalog, lines, from + 2);
    }
  }

  /** No match: the query is dropped and the search starts again. */
  lemma NoMatchSearchesAgain(catalog: seq<string>, lines: seq<string>, from: nat)
    requires from < |lines| && Matches(catalog, lines[from]) == []
    ensures UniversityChoice(catalog, lines, from) == UniversityChoice(catalog, lines, from + 1)
  {
  }

  /** "r", a non-number or a number outside the match list: the round is
      dropped and the search starts again after the choice, with nothing selected. */
  lemma RejectedChoiceSearchesAgain(catalog: seq<string>, lines: seq<string>, from: nat)
    requires from < |lines| && Matches(catalog, lines[from]) != []
    requires var choice := LineAt(lines, from + 1);
      choice == "r" || Stoi(choice).None? || !(1 <= Stoi(choice).value <= |Matches(catalog, lines[from])|)
    ensures UniversityChoice(catalog, lines, from) == UniversityChoice(catalog, lines, from + 2)
  {
  }

  /** A number in range selects that match. */
  lemma ValidChoiceSelects(catalog: seq<string>, lines: seq<string>, from: nat)
    requires from < |lines|
    requires var choice := LineAt(lines, from + 1);
      choice != "r" && Stoi(choice).Some? && 1 <= Stoi(choice).value <= |Matches(catalog, lines[from])|
    ensures UniversityChoice(catalog, lines, from)
         == Some(Reply(Matches(catalog, lines[from])[Stoi(LineAt(lines, from + 1)).value - 1], from + 2))
  {
  }

  /** The answers after `selectUniversity`: only the university changes. */
  function UniversityStep(a: Answers, catalog: seq<string>, lines: seq<string>, from: nat): (r: (Answers, Outcome))
    ensures r.0 == a.(university := r.0.university)
    ensures r.1.Exhausted? ==> r.0 == a
    ensures r.1.Accepted? ==> r.0.university in catalog && from + 2 <= r.1.next <= |lines|
  {
    match UniversityChoice(catalog, lines, from)
    case Some(r) => (a.(university := r.value), Accepted(r.next))
    case None => (a, Exhausted)
  }

  /** One round of the search loop, reading from `pos`: the query, and when it
      has matches, the choice. Either it selects a university and the step ends
      at `next`, or the search starts again at `next`. */
  method SearchRound(universities: seq<string>, lines: seq<string>, pos: nat)
    returns (picked: Option<string>, next: nat)
    requires pos < |lines|
    ensures pos < next <= pos + 2
    ensures picked.Some? ==> UniversityChoice(universities, lines, pos) == Some(Reply(picked.value, next))
    ensures picked.None? ==> UniversityChoice(universities, lines, pos) == UniversityChoice(universities, lines, next)
  {
    var query := lines[pos];
    var matches := FilterMatches(universities, query);
    if matches == [] {
      return None, pos + 1;
    }
    var choice := LineAt(lines, pos + 1);
    if choice == "r" {
      return None, pos + 2;
    }
    var idx := Stoi(choice);
    if idx.Some? && 1 <= idx.value <= |matches| {
      return Some(matches[idx.value - 1]), pos + 2;
    }
    return None, pos + 2;
  }

  /** `selectUniversity`: search rounds until a choice selects a university. */
  method SelectUniversity(profile: UserProfile, universities: seq<string>, lines: seq<string>, from: nat)
    returns (outcome: Outcome)
    modifies profile`university
    ensures (profile.Snapshot(), outcome) == UniversityStep(old(profile.Snapshot()), universities, lines, from)
  {
    var pos := from;
    while pos < |lines|
      invariant UniversityChoice(universities, lines, pos) == UniversityChoice(universities, lines, from)
      invariant profile.university == old(profile.university)
      decreases |lines| - pos
    {
      var picked, next := SearchRound(universities, lines, pos);
      if picked.Some? {
        profile.university := picked.value;
        return Accepted(next);
      }
      pos := next;
    }
    return Exhausted;
  }

  // ---------------------------------------------------------------------------
  // Step 2: enterStudentID
  // ---------------------------------------------------------------------------

  /** The ID check: at least three characters. */
  predicate IsStudentId(id: string)
  {
    |id| >= 3
  }

  /** The ID `enterStudentID` stores: the first line of three or more characters. */
  function StudentIdChoice(lines: seq<string>, from: nat): (r: Option<Reply<string>>)
    ensures r.Some? ==> from < r.value.next <= |lines| && r.value.value == lines[r.value.next - 1]
    ensures r.Some? ==> |r.value.value| >= 3
  {
    Prompt(lines, from, IsStudentId)
  }

  /** A stored ID has at least three characters, every line before it was
      shorter, and no ID is stored when every remaining line is too short. */
  lemma StudentIdIsFirstLongEnough(lines: seq<string>, from: nat)
    ensures StudentIdChoice(lines, from).Some? ==>
      var r := StudentIdChoice(lines, from).value;
      exists k :: from <= k < |lines| && lines[k] == r.value && r.next == k + 1
        && |r.value| >= 3 && forall j :: from <= j < k ==> |lines[j]| < 3
    ensures StudentIdChoice(lines, from).None? <==> forall j :: from <= j < |lines| ==> |lines[j]| < 3
  {
    FirstAcceptedIsFirst(lines, from, IsStudentId);
    var f := FirstAccepted(lines, from, IsStudentId);
    if f.Some? {
      assert lines[f.value] == StudentIdChoice(lines, from).value.value;
    }
  }

  /** The answers after `enterStudentID`: only the ID changes. */
  function StudentIdStep(a: Answers, lines: seq<string>, from: nat): (r: (Answers, Outcome))
    ensures r.0 == a.(studentId := r.0.studentId)
    ensures r.1.Exhausted? ==> r.0 == a
    ensures r.1.Accepted? ==> |r.0.studentId| >= 3 && from < r.1.next <= |lines|
  {
    match StudentIdChoice(lines, from)
    case Some(r) => (a.(studentId := r.value), Accepted(r.next))
    case None => (a, Exhausted)
  }

  /** `enterStudentID`. */
  method EnterStudentId(profile: UserProfile, lines: seq<string>, from: nat) returns (outcome: Outcome)
    modifies profile`studentId
    ensures (profile.Snapshot(), outcome) == StudentIdStep(old(profile.Snapshot()), lines, from)
  {
    var i := from;
    while i < |lines|
      invariant from <= i
      invariant forall j :: from <= j < i && j < |lines| ==> !IsStudentId(lines[j])
      invariant profile.studentId == old(profile.studentId)
      decreases |lines| - i
    {
      var id := lines[i];
      if |id| >= 3 {
        PromptAt(lines, from, IsStudentId, i);
        profile.studentId := id;
        return Accepted(i + 1);
      }
      i := i + 1;
    }
    return Exhausted;
  }

  // ---------------------------------------------------------------------------
  // Step 3: completeProfile
  // ---------------------------------------------------------------------------

  /** The answers the routine and premium loops accept. */
  predicate IsOneOrTwo(line: string)
  {
    line == "1" || line == "2"
  }

  /** The routine the loop stores: "Early Bird" for "1", "Night Owl" for "2". */
  function RoutineChoice(lines: seq<string>, from: nat): (r: Option<Reply<string>>)
    ensures r.Some? ==> r.value.value == EarlyBird || r.value.value == NightOwl
    ensures r.Some? ==> from < r.value.next <= |lines| && (r.value.value == EarlyBird <==> lines[r.value.next - 1] == "1")
  {
    match Prompt(lines, from, IsOneOrTwo)
    case Some(p) => Some(Reply(if p.value == "1" then EarlyBird else NightOwl, p.next))
    case None => None
  }

  /** The routine follows the first "1" or "2": every other line is rejected. */
  lemma RoutineFollowsFirstAnswer(lines: seq<string>, from: nat)
    ensures RoutineChoice(lines, from).None? <==> forall j :: from <= j < |lines| ==> lines[j] != "1" && lines[j] != "2"
    ensures RoutineChoice(lines, from).Some? ==>
      exists k :: from <= k < |lines| && IsOneOrTwo(lines[k]) && RoutineChoice(lines, from).value.next == k + 1
        && (RoutineChoice(lines, from).value.value == EarlyBird <==> lines[k] == "1")
        && forall j :: from <= j < k ==> !IsOneOrTwo(lines[j])
  {
    FirstAcceptedIsFirst(lines, from, IsOneOrTwo);
    var f := FirstAccepted(lines, from, IsOneOrTwo);
    if f.Some? {
      assert IsOneOrTwo(lines[f.value]);
    }
  }

  /** The answers after the routine loop: the first "1" or "2" names the routine. */
  function RoutineStep(a: Answers, lines: seq<string>, from: nat): (r: (Answers, Outcome))
    ensures r.0 == a.(routine := r.0.routine)
    ensures r.1.Exhausted? ==> r.0 == a
    ensures r.1.Accepted? ==> (r.0.routine == EarlyBird || r.0.routine == NightOwl) && from < r.1.next <= |lines|
  {
    match RoutineChoice(lines, from)
    case Some(r) => (a.(routine := r.value), Accepted(r.next))
    case None => (a, Exhausted)
  }

  /** The answers after the three checklists: the lines at `k`, `k + 1` and
      `k + 2`, each parsed against its own catalog. */
  function ChecklistStep(a: Answers, lines: seq<string>, k: nat): (r: (Answers, Outcome))
    ensures r.0 == a.(studyHabits := r.0.studyHabits, interests := r.0.interests, lifestyle := r.0.lifestyle)
    ensures forall x :: x in r.0.studyHabits ==> x in HabitOptions
    ensures forall x :: x in r.0.interests ==> x in InterestOptions
    ensures forall x :: x in r.0.lifestyle ==> x in LifestyleOptions
    ensures r.1 == Accepted(k + 3)
  {
    (a.(studyHabits := SelectedOptions(LineAt(lines, k), HabitOptions),
        interests := SelectedOptions(LineAt(lines, k + 1), InterestOptions),
        lifestyle := SelectedOptions(LineAt(lines, k + 2), LifestyleOptions)),
     Accepted(k + 3))
  }

  /** The answers after `completeProfile`: the major is the next line verbatim,
      then the routine, then the checklists. */
  function ProfileStep(a: Answers, lines: seq<string>, from: nat): (r: (Answers, Outcome))
    ensures r.0 == a.(major := LineAt(lines, from), routine := r.0.routine,
                      studyHabits := r.0.studyHabits, interests := r.0.interests, lifestyle := r.0.lifestyle)
    ensures r.1.Exhausted? ==> r.0 == a.(major := LineAt(lines, from))
    ensures r.1.Accepted? ==> (r.0.routine == EarlyBird || r.0.routine == NightOwl) && from + 5 <= r.1.next
    ensures r.1.Accepted? ==>
      && (forall x :: x in r.0.studyHabits ==> x in HabitOptions)
      && (forall x :: x in r.0.interests ==> x in InterestOptions)
      && (forall x :: x in r.0.lifestyle ==> x in LifestyleOptions)
  {
    var (a1, o1) := RoutineStep(a.(major := LineAt(lines, from)), lines, from + 1);
    if o1.Exhausted? then (a1, o1) else ChecklistStep(a1, lines, o1.next)
  }

  /** The routine loop of `completeProfile`. */
  method ChooseRoutine(profile: UserProfile, lines: seq<string>, from: nat) returns (outcome: Outcome)
    modifies profile`routine
    ensures (profile.Snapshot(), outcome) == RoutineStep(old(profile.Snapshot()), lines, from)
  {
    var i := from;
    while i < |lines|
      invariant from <= i
      invariant forall j :: from <= j < i && j < |lines| ==> !IsOneOrTwo(lines[j])
      invariant profile.routine == old(profile.routine)
      decreases |lines| - i
    {
      var choice := lines[i];
      if choice == "1" {
        PromptAt(lines, from, IsOneOrTwo, i);
        profile.routine := EarlyBird;
        return Accepted(i + 1);
      }
      if choice == "2" {
        PromptAt(lines, from, IsOneOrTwo, i);
        profile.routine := NightOwl;
        return Accepted(i + 1);
      }
      i := i + 1;
    }
    FirstAcceptedIsFirst(lines, from, IsOneOrTwo);
    return Exhausted;
  }

  /** The three checklist questions of `completeProfile`. */
  method ReadChecklists(profile: UserProfile, lines: seq<string>, k: nat) returns (outcome: Outcome)
    modifies profile`studyHabits, profile`interests, profile`lifestyle
    ensures (profile.Snapshot(), outcome) == ChecklistStep(old(profile.Snapshot()), lines, k)
  {
    profile.studyHabits := ParseChoices(LineAt(lines, k), HabitOptions);
    profile.interests := ParseChoices(LineAt(lines, k + 1), InterestOptions);
    profile.lifestyle := ParseChoices(LineAt(lines, k + 2), LifestyleOptions);
    return Accepted(k + 3);
  }

  /** `completeProfile`. */
  method CompleteProfile(profile: UserProfile, lines: seq<string>, from: nat) returns (outcome: Outcome)
    modifies profile`major, profile`routine, profile`studyHabits, profile`interests, profile`lifestyle
    ensures (profile.Snapshot(), outcome) == ProfileStep(old(profile.Snapshot()), lines, from)
  {
    profile.major := LineAt(lines, from);
    outcome := ChooseRoutine(profile, lines, from + 1);
    if outcome.Exhausted? {
      return;
    }
    outcome := ReadChecklists(profile, lines, outcome.next);
  }

  // ---------------------------------------------------------------------------
  // Step 4: offerPremium
  // ---------------------------------------------------------------------------

  /** The premium flag the loop stores: true for "1", false for "2". */
  function PremiumChoice(lines: seq<string>, from: nat): (r: Option<Reply<bool>>)
    ensures r.Some? ==> from < r.value.next <= |lines| && IsOneOrTwo(lines[r.value.next - 1])
    ensures r.Some? ==> (r.value.value <==> lines[r.value.next - 1] == "1")
  {
    match Prompt(lines, from, IsOneOrTwo)
    case Some(p) => Some(Reply(p.value == "1", p.next))
    case None => None
  }

  /** Premium follows the first "1" or "2": every other line is rejected. */
  lemma PremiumFollowsFirstAnswer(lines: seq<string>, from: nat)
    ensures PremiumChoice(lines, from).None? <==> forall j :: from <= j < |lines| ==> lines[j] != "1" && lines[j] != "2"
    ensures PremiumChoice(lines, from).Some? ==>
      exists k :: from <= k < |lines| && IsOneOrTwo(lines[k]) && PremiumChoice(lines, from).value.next == k + 1
        && (PremiumChoice(lines, from).value.value <==> lines[k] == "1")
        && forall j :: from <= j < k ==> !IsOneOrTwo(lines[j])
  {
    FirstAcceptedIsFirst(lines, from, IsOneOrTwo);
    var f := FirstAccepted(lines, from, IsOneOrTwo);
    if f.Some? {
      assert IsOneOrTwo(lines[f.value]);
    }
  }

  /** The answers after `offerPremium`: only the premium flag changes. */
  function PremiumStep(a: Answers, lines: seq<string>, from: nat): (r: (Answers, Outcome))
    ensures r.0 == a.(premium := r.0.premium)
    ensures r.1.Exhausted? ==> r.0 == a
    ensures r.1.Accepted? ==> from < r.1.next <= |lines|
  {
    match PremiumChoice(lines, from)
    case Some(r) => (a.(premium := r.value), Accepted(r.next))
    case None => (a, Exhausted)
  }

  /** `offerPremium`. */
  method OfferPremium(profile: UserProfile, lines: seq<string>, from: nat) returns (outcome: Outcome)
    modifies profile`premium
    ensures (profile.Snapshot(), outcome) == PremiumStep(old(profile.Snapshot()), lines, from)
  {
    var i := from;
    while i < |lines|
      invariant from <= i
      invariant forall j :: from <= j < i && j < |lines| ==> !IsOneOrTwo(lines[j])
      invariant profile.premium == old(profile.premium)
      decreases |lines| - i
    {
      var choice := lines[i];
      if choice == "1" {
        PromptAt(lines, from, IsOneOrTwo, i);
        profile.premium := true;
        return Accepted(i + 1);
      }
      if choice == "2" {
        PromptAt(lines, from, IsOneOrTwo, i);
        profile.premium := false;
        return Accepted(i + 1);
      }
      i := i + 1;
    }
    return Exhausted;
  }

  // ---------------------------------------------------------------------------
  // End of input
  // ---------------------------------------------------------------------------

  /** What every read returns once input has ended. */
  function EndOfInput(n: nat): seq<string>
  {
    seq(n, _ => [])
  }

  /** After end of input no step can accept anything: the source's loops spin
      forever, which the model reports as exhaustion. */
  lemma {:induction false} EndOfInputNeverAccepted(catalog: seq<string>, n: nat, from: nat)
    ensures UniversityChoice(catalog, EndOfInput(n), from).None?
    ensures StudentIdChoice(EndOfInput(n), from).None?
    ensures RoutineChoice(EndOfInput(n), from).None?
    ensures PremiumChoice(EndOfInput(n), from).None?
    decreases n - from
  {
    var lines := EndOfInput(n);
    assert [] + lines == lines;
    UniversityChoiceBlank(catalog, [], n, from);
    StudentIdIsFirstLongEnough(lines, from);
    RoutineFollowsFirstAnswer(lines, from);
    PremiumFollowsFirstAnswer(lines, from);
    if from < n {
      assert lines[from] == [];
      EndOfInputNeverAccepted(catalog, n, from + 1);
    }
  }

  /** Reading from input followed by `n` empty lines is reading the input
      itself: past its end every read yields "" either way. */
  lemma LineAtPadded(lines: seq<string>, n: nat, k: nat)
    ensures LineAt(lines + EndOfInput(n), k) == LineAt(lines, k)
  {
    var padded := lines + EndOfInput(n);
    if |lines| <= k < |padded| {
      assert padded[k] == EndOfInput(n)[k - |lines|];
    }
  }

  /** A loop that rejects "" ends the same way whether or not the input is
      followed by empty lines. */
  lemma {:induction false} PromptPadded(lines: seq<string>, n: nat, from: nat, accept: string -> bool)
    requires !accept([])
    ensures FirstAccepted(lines + EndOfInput(n), from, accept) == FirstAccepted(lines, from, accept)
    ensures Prompt(lines + EndOfInput(n), from, accept) == Prompt(lines, from, accept)
    decreases |lines| + n - from
  {
    var padded := lines + EndOfInput(n);
    if from < |padded| {
      LineAtPadded(lines, n, from);
      assert padded[from] == LineAt(lines, from);
      PromptPadded(lines, n, from + 1, accept);
    }
    var f := FirstAccepted(lines, from, accept);
    if f.Some? {
      assert padded[f.value] == lines[f.value];
    }
  }

  /** Past the end of input the university search never selects anything:
      the query "" lists the catalog, but the choice "" is not a number. */
  lemma {:induction false} UniversityChoiceBlank(catalog: seq<string>, lines: seq<string>, n: nat, from: nat)
    requires from >= |lines|
    ensures UniversityChoice(catalog, lines + EndOfInput(n), from).None?
    decreases |lines| + n - from
  {
    var padded := lines + EndOfInput(n);
    if from < |padded| {
      LineAtPadded(lines, n, from);
      LineAtPadded(lines, n, from + 1);
      NoDigitNoNumber([]);
      var next := if Matches(catalog, []) == [] then from + 1 else from + 2;
      assert UniversityChoice(catalog, padded, from) == UniversityChoice(catalog, padded, next) by {
        assert padded[from] == [];
        assert LineAt(padded, from + 1) == [];
      }
      UniversityChoiceBlank(catalog, lines, n, next);
    }
  }

  /** The university search ends the same way whether or not the input is
      followed by empty lines. */
  lemma {:induction false} UniversityChoicePadded(catalog: seq<string>, lines: seq<string>, n: nat, from: nat)
    ensures UniversityChoice(catalog, lines + EndOfInput(n), from) == UniversityChoice(catalog, lines, from)
    decreases |lines| - from
  {
    if from >= |lines| {
      UniversityChoiceBlank(catalog, lines, n, from);
    } else {
      var padded := lines + EndOfInput(n);
      LineAtPadded(lines, n, from + 1);
      assert padded[from] == lines[from];
      var matches := Matches(catalog, lines[from]);
      if matches == [] {
        UniversityChoicePadded(catalog, lines, n, from + 1);
      } else {
        var choice := LineAt(lines, from + 1);
        assert LineAt(padded, from + 1) == choice;
        if choice == "r" || Stoi(choice).None? || !(1 <= Stoi(choice).value <= |matches|) {
          UniversityChoicePadded(catalog, lines, n, from + 2);
        }
      }
    }
  }

  /** `completeProfile` ends the same way whether or not the input is
      followed by empty lines. */
  lemma ProfileStepPadded(a: Answers, lines: seq<string>, n: nat, from: nat)
    ensures ProfileStep(a, lines + EndOfInput(n), from) == ProfileStep(a, lines, from)
  {
    var padded := lines + EndOfInput(n);
    LineAtPadded(lines, n, from);
    PromptPadded(lines, n, from + 1, IsOneOrTwo);
    var a0 := a.(major := LineAt(lines, from));
    var (a1, o1) := RoutineStep(a0, lines, from + 1);
    assert RoutineStep(a0, padded, from + 1) == (a1, o1);
    if o1.Accepted? {
      LineAtPadded(lines, n, o1.next);
      LineAtPadded(lines, n, o1.next + 1);
      LineAtPadded(lines, n, o1.next + 2);
      assert ChecklistStep(a1, padded, o1.next) == ChecklistStep(a1, lines, o1.next);
    }
  }

  // ---------------------------------------------------------------------------
  // main
  // ---------------------------------------------------------------------------

  /** What `main` ends with: the four steps in their fixed order on a blank
      profile, each one reading on from where the previous one stopped. A step
      that runs out of input ends the run (the source would wait forever there). */
  function Run(catalog: seq<string>, lines: seq<string>): (r: (Answers, Outcome))
    ensures r.1.Accepted? ==> 9 <= r.1.next <= |lines|
  {
    var (a1, o1) := UniversityStep(Blank, catalog, lines, 0);
    if o1.Exhausted? then (a1, o1) else
    var (a2, o2) := StudentIdStep(a1, lines, o1.next);
    if o2.Exhausted? then (a2, o2) else
    var (a3, o3) := ProfileStep(a2, lines, o2.next);
    if o3.Exhausted? then (a3, o3) else
    PremiumStep(a3, lines, o3.next)
  }

  /** `main`, up to the summary. */
  method Onboard(universities: seq<string>, lines: seq<string>) returns (profile: UserProfile, outcome: Outcome)
    ensures (profile.Snapshot(), outcome) == Run(universities, lines)
  {
    profile := new UserProfile();
    outcome := SelectUniversity(profile, universities, lines, 0);
    if outcome.Exhausted? {
      return;
    }
    outcome := EnterStudentId(profile, lines, outcome.next);
    if outcome.Exhausted? {
      return;
    }
    outcome := CompleteProfile(profile, lines, outcome.next);
    if outcome.Exhausted? {
      return;
    }
    outcome := OfferPremium(profile, lines, outcome.next);
  }

  /** Whatever the input, the answers of a completed run are ones the program
      offers: a catalog entry, an ID of three or more characters, one of the
      two routines, and checklist entries drawn from their own catalogs. */
  predicate Plausible(a: Answers, catalog: seq<string>)
  {
    && a.university in catalog
    && |a.studentId| >= 3
    && (a.routine == EarlyBird || a.routine == NightOwl)
    && (forall x :: x in a.studyHabits ==> x in HabitOptions)
    && (forall x :: x in a.interests ==> x in InterestOptions)
    && (forall x :: x in a.lifestyle ==> x in LifestyleOptions)
  }

  lemma RunAnswersArePlausible(catalog: seq<string>, lines: seq<string>)
    ensures Run(catalog, lines).1.Accepted? ==> Plausible(Run(catalog, lines).0, catalog)
  {
  }

  /** Input that has already ended leaves the profile blank. */
  lemma EndOfInputLeavesBlank(catalog: seq<string>, n: nat)
    ensures Run(catalog, EndOfInput(n)) == (Blank, Exhausted)
  {
    EndOfInputNeverAccepted(catalog, n, 0);
  }

  /** Reaching the end of input is final: input followed by any number of
      empty lines (what every read returns once input has ended) gives the
      same answers and the same outcome. So `Exhausted` means the source would
      re-prompt forever, whatever the input. */
  lemma RunPadded(catalog: seq<string>, lines: seq<string>, n: nat)
    ensures Run(catalog, lines + EndOfInput(n)) == Run(catalog, lines)
  {
    var padded := lines + EndOfInput(n);
    UniversityChoicePadded(catalog, lines, n, 0);
    var (a1, o1) := UniversityStep(Blank, catalog, lines, 0);
    assert UniversityStep(Blank, catalog, padded, 0) == (a1, o1);
    if o1.Exhausted? {
      assert Run(catalog, padded) == (a1, o1) == Run(catalog, lines);
      return;
    }
    PromptPadded(lines, n, o1.next, IsStudentId);
    var (a2, o2) := StudentIdStep(a1, lines, o1.next);
    assert StudentIdStep(a1, padded, o1.next) == (a2, o2);
    if o2.Exhausted? {
      assert Run(catalog, padded) == (a2, o2) == Run(catalog, lines);
      return;
    }
    ProfileStepPadded(a2, lines, n, o2.next);
    var (a3, o3) := ProfileStep(a2, lines, o2.next);
    if o3.Exhausted? {
      assert Run(catalog, padded) == (a3, o3) == Run(catalog, lines);
      return;
    }
    PromptPadded(lines, n, o3.next, IsOneOrTwo);
    assert Run(catalog, padded) == PremiumStep(a3, padded, o3.next);
    assert Run(catalog, lines) == PremiumStep(a3, lines, o3.next);
  }
}
