/** `showSummary`: the text printed once all four steps are done. Each list is
    printed as its items, each followed by ", "; the premium flag as "Yes" or "No". */
module Summary {
  import opened Wrappers
  import opened Onboarding

  /** The items of a list as the summary prints them: every item followed by ", ". */
  function RenderList(items: seq<string>): (r: string)
    ensures |r| >= 2 * |items|
    ensures items != [] ==> r[|r| - 2..] == ", "
  {
    if items == [] then []
    else RenderList(items[..|items| - 1]) + items[|items| - 1] + ", "
  }

  /** The `for` loop that prints one list. */
  method RenderItems(items: seq<string>) returns (text: string)
    ensures text == RenderList(items)
  {
    text := [];
    for i := 0 to |items|
      invariant text == RenderList(items[..i])
    {
      assert items[..i + 1][..i] == items[..i];
      text := text + items[i] + ", ";
    }
    assert items[..|items|] == items;
  }

  /** Adding one item prints it, with its ", ", after the others. */
  lemma RenderListSnoc(items: seq<string>, x: string)
    ensures RenderList(items + [x]) == RenderList(items) + x + ", "
  {
    assert (items + [x])[..|items|] == items;
  }

  /** Printing two lists one after the other prints their concatenation. */
  lemma {:induction false} RenderListAppend(a: seq<string>, b: seq<string>)
    ensures RenderList(a + b) == RenderList(a) + RenderList(b)
    decreases |b|
  {
    if b == [] {
      assert a + b == a;
    } else {
      var init, last := b[..|b| - 1], b[|b| - 1];
      SplitLast(a, b);
      RenderListSnoc(a + init, last);
      RenderListAppend(a, init);
      RenderListSnoc(init, last);
      Regroup(RenderList(a), RenderList(init), last, ", ");
    }
  }

  /** Sequence facts kept apart from `RenderList`, whose unfolding makes them
      expensive to prove in place. */
  lemma Regroup<T>(p: seq<T>, q: seq<T>, x: seq<T>, y: seq<T>)
    ensures p + q + x + y == p + (q + x + y)
  {
  }

  lemma SplitLast<T>(a: seq<T>, b: seq<T>)
    requires b != []
    ensures b == b[..|b| - 1] + [b[|b| - 1]]
    ensures a + b == (a + b[..|b| - 1]) + [b[|b| - 1]]
  {
  }

  /** Every item appears in order, each one followed by ", ": the printed
      list is the items before `k`, then item `k` and ", ", then the items after. */
  lemma RenderListAt(items: seq<string>, k: nat)
    requires k < |items|
    ensures RenderList(items) == RenderList(items[..k]) + items[k] + ", " + RenderList(items[k + 1..])
  {
    var front, back := items[..k + 1], items[k + 1..];
    assert items == front + back;
    RenderListAppend(front, back);
    RenderListPrefix(items, k);
  }

  /** The printed prefix of length `k + 1` extends the one of length `k` by item `k`. */
  lemma RenderListPrefix(items: seq<string>, k: nat)
    requires k < |items|
    ensures RenderList(items[..k + 1]) == RenderList(items[..k]) + items[k] + ", "
  {
    assert items[..k + 1][..k] == items[..k];
  }

  /** The premium line's value. */
  function PremiumLabel(premium: bool): (r: string)
    ensures r == "Yes" || r == "No"
  {
    if premium then "Yes" else "No"
  }

  /** The two labels are distinct, so the printed label determines the flag. */
  lemma PremiumLabelDistinct(a: bool, b: bool)
    ensures PremiumLabel(a) == PremiumLabel(b) <==> a == b
  {
    if a != b {
      assert PremiumLabel(a)[0] != PremiumLabel(b)[0];
    }
  }

  /** Everything before the premium line. */
  function SummaryBody(a: Answers): (r: string)
    ensures r != [] && r[|r| - 1] == '\n'
  {
    "\n===== Summary =====\n"
    + "University: " + a.university + "\n"
    + "Student ID: " + a.studentId + "\n"
    + "Major: " + a.major + "\n"
    + "Routine: " + a.routine + "\n"
    + "Study Habits: " + RenderList(a.studyHabits) + "\n"
    + "Interests: " + RenderList(a.interests) + "\n"
    + "Lifestyle: " + RenderList(a.lifestyle) + "\n"
  }

  /** The whole summary text. */
  function SummaryText(a: Answers): (r: string)
    ensures |SummaryBody(a)| < |r| && r[..|SummaryBody(a)|] == SummaryBody(a)
    ensures r[|r| - 1] == '\n'
  {
    SummaryBody(a) + "Premium: " + PremiumLabel(a.premium) + "\n"
  }

  /** The summary ends with the line "Premium: Yes" exactly when the profile
      is premium. */
  lemma SummaryShowsPremium(a: Answers)
    ensures var t := SummaryText(a);
      |t| >= 13 && (t[|t| - 13..] == "Premium: Yes\n" <==> a.premium)
  {
    var body := SummaryBody(a);
    var t := SummaryText(a);
    if a.premium {
      assert t == body + "Premium: Yes\n";
      assert t[|t| - 13..] == "Premium: Yes\n";
    } else {
      assert t == body + "Premium: No\n";
      assert t[|t| - 13] == body[|body| - 1] == '\n';
    }
  }

  /** `showSummary`. */
  method ShowSummary(profile: UserProfile) returns (text: string)
    ensures text == SummaryText(profile.Snapshot())
  {
    var habits := RenderItems(profile.studyHabits);
    var interests := RenderItems(profile.interests);
    var lifestyle := RenderItems(profile.lifestyle);
    text := "\n===== Summary =====\n";
    text := text + "University: " + profile.university + "\n";
    text := text + "Student ID: " + profile.studentId + "\n";
    text := text + "Major: " + profile.major + "\n";
    text := text + "Routine: " + profile.routine + "\n";
    text := text + "Study Habits: " + habits + "\n";
    text := text + "Interests: " + interests + "\n";
    text := text + "Lifestyle: " + lifestyle + "\n";
    text := text + "Premium: " + (if profile.premium then "Yes" else "No") + "\n";
  }

  /** `main`: the four steps, then the summary, which is printed only when
      every step accepted an answer. */
  method OnboardAndSummarize(universities: seq<string>, lines: seq<string>)
    returns (profile: UserProfile, outcome: Outcome, text: string)
    ensures (profile.Snapshot(), outcome) == Run(universities, lines)
    ensures outcome.Accepted? ==> text == SummaryText(Run(universities, lines).0)
    ensures outcome.Exhausted? ==> text == []
  {
    profile, outcome := Onboard(universities, lines);
    text := [];
    if outcome.Accepted? {
      text := ShowSummary(profile);
    }
  }
}
