/**
  A worked example of `slugify`: the file name of a home for the elderly
  whose name has a letter with a caron and two spaces.
 */
module SlugExamples {
  import opened Slugs

  /** U+0161 (s with caron) decomposes to "s" and U+030C. */
  lemma CaronS()
    ensures Decompose('\U{161}') == ['s', '\U{30C}']
  {
  }

  /** Capitals are lowered: "Dom" folds to "dom" and "Maribor" to
      "maribor". */
  lemma CapitalsFold()
    ensures Folded(['D'] + "om") == "dom"
    ensures Folded(['M'] + "aribor") == "maribor"
  {
    CapitalisedWordFolds('D', "om");
    CapitalisedWordFolds('M', "aribor");
  }

  /** The caron is deleted: "Starej\U{161}ih" folds to "starejsih". */
  lemma CaronFolds()
    ensures Folded(['S'] + "tarej" + ['\U{161}'] + "ih") == "starejsih"
  {
    calc {
      Folded(['S'] + "tarej" + ['\U{161}'] + "ih");
      { AccentedLetterFoldsToBase(['S'] + "tarej", '\U{161}', "ih"); CaronS(); }
      Folded(['S'] + "tarej") + ['s'] + Folded("ih");
      { CapitalisedWordFolds('S', "tarej"); }
      ['s'] + "tarej" + ['s'] + Folded("ih");
      { FoldedKeepsSlugAlphabet("ih"); }
      ['s'] + "tarej" + ['s'] + "ih";
      "starejsih";
    }
  }

  /** The name with its words spelled out. */
  lemma NameSpelled()
    ensures (['D'] + "om") + " " + (['S'] + "tarej" + ['\U{161}'] + "ih") + " " + (['M'] + "aribor")
            == "Dom Starej\U{161}ih Maribor"
  {
  }

  /** The slug with its words spelled out. */
  lemma SlugSpelled()
    ensures "dom" + "-" + "starejsih" + "-" + "maribor" == "dom-starejsih-maribor"
    ensures IsWord("dom") && IsWord("starejsih") && IsWord("maribor")
  {
  }

  /** "Dom Starej\U{161}ih Maribor" is saved as "dom-starejsih-maribor". */
  lemma SlugExample()
    ensures Slugify("Dom Starej\U{161}ih Maribor") == "dom-starejsih-maribor"
  {
    CapitalsFold();
    CaronFolds();
    NameSpelled();
    SlugSpelled();
    SlugOfSpacedWords(['D'] + "om", ['S'] + "tarej" + ['\U{161}'] + "ih", ['M'] + "aribor",
                      "dom", "starejsih", "maribor");
  }
}
