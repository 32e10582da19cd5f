/** A concrete run of the university choice. */
module SearchExamples {
  import opened Wrappers
  import opened Choices
  import opened Search
  import opened Onboarding
  import opened Examples

  /** Pressing Enter lists the whole catalog, so answering "1" then picks its
      first entry. */
  lemma ListAllThenFirst(catalog: seq<string>, rest: seq<string>)
    requires catalog != []
    ensures UniversityChoice(catalog, ["", "1"] + rest, 0) == Some(Reply(catalog[0], 2))
  {
    var lines := ["", "1"] + rest;
    assert lines[0] == "" && LineAt(lines, 1) == "1";
    EmptyQueryListsAll(catalog);
    SmallNumbers();
    ValidChoiceSelects(catalog, lines, 0);
  }
}
