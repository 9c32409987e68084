/** The messages of the first June 2023 scenario, word for word: two new
    homicides one day after the last record, and a year-to-date count of
    152 against 140 a year earlier, which the rounded percent shows as 9. */
module Wording {
  import opened Decimal
  import opened Narrative

  /** The numbers the scenario's messages print. */
  lemma SmallNumbers()
    ensures ShowInt(2) == "2" && ShowNat(9) == "9"
    ensures ShowInt(150) == "150" && ShowInt(152) == "152" && ShowInt(2022) == "2022"
  {
    assert ShowNat(15) == "15";
    assert ShowNat(202) == "202";
  }

  /** The change clause for two new homicides writes the numeral. */
  lemma ChangeClauseExample()
    ensures ChangeClause(2) == "There were 2 new homicides in Philadelphia"
  {
    assert ShowInt(2) == "2";
  }

  /** The change message: the clause, then the phrase for a one-day gap. */
  lemma ChangeMessageExample()
    ensures ChangeMessage(2, "on Thursday Jun. 15, 2023") ==
      "There were 2 new homicides in Philadelphia on Thursday Jun. 15, 2023."
  {
    ChangeClauseExample();
    var clause, phrase := "There were 2 new homicides in Philadelphia", "on Thursday Jun. 15, 2023";
    assert clause + " " + phrase + "." == "There were 2 new homicides in Philadelphia on Thursday Jun. 15, 2023.";
  }

  /** The year-over-year suffix for an increase over last year. */
  lemma YoySuffixExample()
    ensures YoySuffix(Increase, 2022, 9) == " an increase of 9% from 2022."
  {
    SmallNumbers();
  }
}
