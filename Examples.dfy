/** Concrete runs of `stoi`, of the comma splitting and of `parseChoices`. */
module Examples {
  import opened Wrappers
  import opened Choices
  import opened Catalogs

  /** `getline` with ',' as delimiter: ",," gives two empty tokens and a
      trailing comma gives no extra token. */
  lemma TokenExamples()
    ensures Tokens(",,") == ["", ""]
    ensures Tokens("1,") == ["1"]
    ensures Tokens("") == []
  {
    NextTokenSplit("", ",");
    NextTokenSplit("", "");
    NextTokenSplit("1", "");
    assert "" + [','] + "," == ",,";
    assert "" + [','] + "" == ",";
    assert "1" + [','] + "" == "1,";
  }

  /** `stoi` skips leading blanks, reads a sign and digits and ignores the rest. */
  lemma StoiExamples()
    ensures Stoi(" -7x") == Some(-7)
    ensures Stoi("abc") == None
  {
    assert SkipSpace(" -7x") == "-7x" by {
      assert " -7x"[1..] == "-7x";
    }
    assert Unsigned("-7x") == "7x";
    DigitPrefixOf("7", "x");
    assert "7" + "x" == "7x";
    assert DigitsValue("7") == 7;
    NoDigitNoNumber("abc");
  }

  /** One token per option number: "1" and "3" are the first and third. */
  lemma SmallNumbers()
    ensures Stoi("1") == Some(1) && Stoi("2") == Some(2) && Stoi("3") == Some(3)
    ensures Stoi("99") == Some(99)
  {
    StoiDecimal(1, []);
    StoiDecimal(2, []);
    StoiDecimal(3, []);
    StoiDecimal(99, []);
    assert Decimal(1) + [] == "1";
    assert Decimal(2) + [] == "2";
    assert Decimal(3) + [] == "3";
    assert Decimal(99) + [] == "99";
  }

  /** List facts kept apart from the parser's functions, whose unfolding on
      concrete text makes them expensive to prove in place. */
  lemma Pair<T>(x: T, y: T)
    ensures [x] + [y] == [x, y]
  {
  }

  lemma Quad<T>(w: T, x: T, y: T, z: T)
    ensures [w, x] + [y, z] == [w, x, y, z]
  {
  }

  /** "1,3" splits into the tokens "1" and "3". */
  lemma OneThreeTokens()
    ensures Tokens("1,3") == ["1", "3"]
  {
    var ts := ["1", "3"];
    TokensOfJoin(ts);
    assert Join(ts) == "1,3";
  }

  /** The single-token picks the next examples are made of. */
  lemma InterestPicks()
    ensures Pick("1", InterestOptions) == ["Sports"]
    ensures Pick("2", InterestOptions) == ["Coding"]
    ensures Pick("3", InterestOptions) == ["Volunteering"]
    ensures Pick("abc", InterestOptions) == []
    ensures Pick("99", InterestOptions) == []
  {
    SmallNumbers();
    NoDigitNoNumber("abc");
  }

  /** "1,3" against the interest checklist picks the first and third interests. */
  lemma InterestExample()
    ensures SelectedOptions("1,3", InterestOptions) == ["Sports", "Volunteering"]
  {
    OneThreeTokens();
    InterestPicks();
    PicksAppend(["1"], ["3"], InterestOptions);
    PicksSingle("1", InterestOptions);
    PicksSingle("3", InterestOptions);
    Pair("1", "3");
    Pair("Sports", "Volunteering");
  }

  /** "2,abc,99,2" splits into four tokens. */
  lemma FourTokens()
    ensures Tokens("2,abc,99,2") == ["2", "abc", "99", "2"]
  {
    var ts := ["2", "abc", "99", "2"];
    TokensOfJoin(ts);
    assert Join(ts) == "2,abc,99,2";
  }

  /** Tokens that are not numbers or are out of range are dropped, and
      duplicates are kept: "2,abc,99,2" picks "Coding" twice. */
  lemma DroppedAndDuplicated()
    ensures SelectedOptions("2,abc,99,2", InterestOptions) == ["Coding", "Coding"]
  {
    FourTokens();
    InterestPicks();
    var two := Pick("2", InterestOptions);
    assert Picks(["2", "abc"], InterestOptions) == two by {
      DroppedToken(["2"], "abc", [], InterestOptions);
      PicksSingle("2", InterestOptions);
      Pair("2", "abc");
      assert ["2"] + [] == ["2"];
    }
    assert Picks(["99", "2"], InterestOptions) == two by {
      DroppedToken([], "99", ["2"], InterestOptions);
      PicksSingle("2", InterestOptions);
      Pair("99", "2");
      assert [] + ["2"] == ["2"];
    }
    PicksAppend(["2", "abc"], ["99", "2"], InterestOptions);
    Quad("2", "abc", "99", "2");
    Pair("Coding", "Coding");
  }
}
