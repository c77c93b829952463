/** Worked answers of `lookup_constant` on particular queries, derived from the
    general lemmas of `Constants`. Each record gets a pair of lemmas: one lists
    characters its key and symbol lack, the other concludes that queries holding
    one of them do not match it. The lookups then follow from
    `LookupFindsEarliest` and `LookupNotFoundIff`. */
module LookupExamples {
  import opened AsciiText
  import opened Constants

  /** "pi" straddles no word of "speed of light": 'p' is only in "speed", 'i' only
      in "light", and they are too far apart. */
  lemma PiNotInSpeedOfLight()
    ensures !IsSubstring("pi", "speed of light")
  {
    SubstringOfJoin("pi", "speed", " of light");
    MissingCharNotSubstring("pi", "speed", 'i');
    assert "speed"[4..] + " of light" == "d of light";
    MissingCharNotSubstring("pi", "d of light", 'p');
  }

  /** Record by record: a query holding one of the listed characters, none of
      which occurs in the record's key or lower-cased symbol, misses the record. */
  lemma SpeedOfLightKeyLacks(ch: char)
    requires ch in "πxk"
    ensures ch !in "speed of light" && [ch] != "c"
  {
  }

  lemma SpeedOfLightMisses(query: string, ch: char)
    requires ch in query && ch in "πxk"
    ensures !Matches(query, Table()[0])
  {
    SpeedOfLightKeyLacks(ch);
    MissingCharNotSubstring(query, "speed of light", ch);
    assert Table()[0].key == "speed of light" && Lower(Table()[0].symbol) == "c";
  }

  lemma GravitationalConstantKeyLacks(ch: char)
    requires ch in "pπxk"
    ensures ch !in "gravitational constant" && [ch] != "g"
  {
  }

  lemma GravitationalConstantMisses(query: string, ch: char)
    requires ch in query && ch in "pπxk"
    ensures !Matches(query, Table()[1])
  {
    GravitationalConstantKeyLacks(ch);
    MissingCharNotSubstring(query, "gravitational constant", ch);
    assert Table()[1].key == "gravitational constant" && Lower(Table()[1].symbol) == "g";
  }

  lemma PlanckConstantKeyLacks(ch: char)
    requires ch in "iπx"
    ensures ch !in "planck constant" && [ch] != "h"
  {
  }

  lemma PlanckConstantMisses(query: string, ch: char)
    requires ch in query && ch in "iπx"
    ensures !Matches(query, Table()[2])
  {
    PlanckConstantKeyLacks(ch);
    MissingCharNotSubstring(query, "planck constant", ch);
    assert Table()[2].key == "planck constant" && Lower(Table()[2].symbol) == "h";
  }

  lemma ElementaryChargeKeyLacks(ch: char)
    requires ch in "pπx"
    ensures ch !in "elementary charge" && [ch] != "e"
  {
  }

  lemma ElementaryChargeMisses(query: string, ch: char)
    requires ch in query && ch in "pπx"
    ensures !Matches(query, Table()[3])
  {
    ElementaryChargeKeyLacks(ch);
    MissingCharNotSubstring(query, "elementary charge", ch);
    assert Table()[3].key == "elementary charge" && Lower(Table()[3].symbol) == "e";
  }

  lemma AvogadroConstantKeyLacks(ch: char)
    requires ch in "pπx"
    ensures ch !in "avogadro constant" && [ch] != "nₐ"
  {
  }

  lemma AvogadroConstantMisses(query: string, ch: char)
    requires ch in query && ch in "pπx"
    ensures !Matches(query, Table()[4])
  {
    AvogadroConstantKeyLacks(ch);
    MissingCharNotSubstring(query, "avogadro constant", ch);
    assert Table()[4].key == "avogadro constant" && Lower(Table()[4].symbol) == "nₐ";
  }

  lemma BoltzmannConstantKeyLacks(ch: char)
    requires ch in "pπx"
    ensures ch !in "boltzmann constant" && [ch] != "k"
  {
  }

  lemma BoltzmannConstantMisses(query: string, ch: char)
    requires ch in query && ch in "pπx"
    ensures !Matches(query, Table()[5])
  {
    BoltzmannConstantKeyLacks(ch);
    MissingCharNotSubstring(query, "boltzmann constant", ch);
    assert Table()[5].key == "boltzmann constant" && Lower(Table()[5].symbol) == "k";
  }

  lemma GasConstantKeyLacks(ch: char)
    requires ch in "pπx"
    ensures ch !in "gas constant" && [ch] != "r"
  {
  }

  lemma GasConstantMisses(query: string, ch: char)
    requires ch in query && ch in "pπx"
    ensures !Matches(query, Table()[6])
  {
    GasConstantKeyLacks(ch);
    MissingCharNotSubstring(query, "gas constant", ch);
    assert Table()[6].key == "gas constant" && Lower(Table()[6].symbol) == "r";
  }

  lemma GravityKeyLacks(ch: char)
    requires ch in "pπx"
    ensures ch !in "acceleration due to gravity" && [ch] != "g"
  {
  }

  lemma GravityMisses(query: string, ch: char)
    requires ch in query && ch in "pπx"
    ensures !Matches(query, Table()[7])
  {
    GravityKeyLacks(ch);
    MissingCharNotSubstring(query, "acceleration due to gravity", ch);
    assert Table()[7].key == "acceleration due to gravity" && Lower(Table()[7].symbol) == "g";
  }

  lemma PiRecordKeyLacks(ch: char)
    requires ch in "x"
    ensures ch !in "pi" && [ch] != "π"
  {
  }

  lemma PiRecordMisses(query: string, ch: char)
    requires ch in query && ch in "x"
    ensures !Matches(query, Table()[8])
  {
    PiRecordKeyLacks(ch);
    MissingCharNotSubstring(query, "pi", ch);
    assert Table()[8].key == "pi" && Lower(Table()[8].symbol) == "π";
  }

  lemma EulerNumberKeyLacks(ch: char)
    requires ch in "x"
    ensures ch !in "euler's number" && [ch] != "e"
  {
  }

  lemma EulerNumberMisses(query: string, ch: char)
    requires ch in query && ch in "x"
    ensures !Matches(query, Table()[9])
  {
    EulerNumberKeyLacks(ch);
    MissingCharNotSubstring(query, "euler's number", ch);
    assert Table()[9].key == "euler's number" && Lower(Table()[9].symbol) == "e";
  }

  lemma SpeedOfLightMissesPi()
    ensures !Matches("pi", Table()[0])
  {
    PiNotInSpeedOfLight();
    assert Table()[0].key == "speed of light" && Lower(Table()[0].symbol) == "c";
  }

  /** Neither "pi" nor "π" matches any of the first eight records. */
  lemma PiMissesEarlierRecords()
    ensures forall j :: 0 <= j < 8 ==> !Matches("pi", Table()[j]) && !Matches("π", Table()[j])
  {
    forall j | 0 <= j < 8
      ensures !Matches("pi", Table()[j]) && !Matches("π", Table()[j])
    {
      if j == 0 { SpeedOfLightMissesPi(); SpeedOfLightMisses("π", 'π'); }
      else if j == 1 { GravitationalConstantMisses("pi", 'p'); GravitationalConstantMisses("π", 'π'); }
      else if j == 2 { PlanckConstantMisses("pi", 'i'); PlanckConstantMisses("π", 'π'); }
      else if j == 3 { ElementaryChargeMisses("pi", 'p'); ElementaryChargeMisses("π", 'π'); }
      else if j == 4 { AvogadroConstantMisses("pi", 'p'); AvogadroConstantMisses("π", 'π'); }
      else if j == 5 { BoltzmannConstantMisses("pi", 'p'); BoltzmannConstantMisses("π", 'π'); }
      else if j == 6 { GasConstantMisses("pi", 'p'); GasConstantMisses("π", 'π'); }
      else { GravityMisses("pi", 'p'); GravityMisses("π", 'π'); }
    }
  }

  /** "pi" finds the pi record through its key. */
  lemma LookupPiByName()
    ensures Lookup("pi") == Format(Table()[8])
  {
    PiMissesEarlierRecords();
    assert Normalize("pi") == "pi" && OccursAt("pi", Table()[8].key, 0);
    LookupFindsEarliest("pi", 8);
  }

  /** "π" finds the pi record through its symbol. */
  lemma LookupPiBySymbol()
    ensures Lookup("π") == Format(Table()[8])
  {
    PiMissesEarlierRecords();
    assert Normalize("π") == "π" == Lower(Table()[8].symbol);
    LookupFindsEarliest("π", 8);
  }

  lemma PaddedUpperPi()
    ensures Lookup(" PI ") == Lookup("PI")
  {
    assert " PI " == " " + "PI" + " ";
    LookupIgnoresCaseAndPadding("PI", " ", " ");
  }

  lemma UpperPi()
    ensures Lookup("PI") == Lookup("pi")
  {
    assert Lower("PI") == "pi";
    LookupIgnoresCaseAndPadding("PI", "", "");
  }

  /** " PI " is "pi" upper-cased and padded, so it answers the same. */
  lemma LookupPaddedPi()
    ensures Lookup(" PI ") == Lookup("pi")
  {
    PaddedUpperPi();
    UpperPi();
  }

  /** "pi", "π" and " PI " all answer with the pi record's line, which carries
      the value 3.1415926535. */
  lemma LookupPi()
    ensures Lookup("pi") == Lookup("π") == Lookup(" PI ") == "Pi (π): 3.1415926535 "
  {
    LookupPiByName();
    LookupPiBySymbol();
    LookupPaddedPi();
    PiFormat();
  }

  /** The pi record's line, in full. */
  lemma PiFormat()
    ensures Format(Table()[8]) == "Pi (π): 3.1415926535 "
  {
    PiRecordFormat();
    assert Table()[8] == Constant("pi", "π", "3.1415926535", "");
  }

  lemma PiRecordFormat()
    ensures Format(Constant("pi", "π", "3.1415926535", "")) == "Pi (π): 3.1415926535 "
  {
    var c := Constant("pi", "π", "3.1415926535", "");
    FormatJoins(c);
    PiTitle();
    PiLineJoins();
  }

  /** How Format lays out a record's fields. */
  lemma FormatJoins(c: Constant)
    ensures Format(c) == Title(c.key) + " (" + c.symbol + "): " + c.value + " " + c.unit
  {
  }

  lemma PiLineJoins()
    ensures "Pi" + " (" + "π" + "): " + "3.1415926535" + " " + "" == "Pi (π): 3.1415926535 "
  {
  }

  lemma PiTitle()
    ensures Title("pi") == "Pi"
  {
    assert Title("pi")[0] == 'P';
  }

  /** A query no key or symbol contains gets the hint. */
  lemma LookupUnknown()
    ensures Lookup("xyz123") == NotFound
  {
    forall j | 0 <= j < |Table()|
      ensures !Matches("xyz123", Table()[j])
    {
      if j == 0 { SpeedOfLightMisses("xyz123", 'x'); }
      else if j == 1 { GravitationalConstantMisses("xyz123", 'x'); }
      else if j == 2 { PlanckConstantMisses("xyz123", 'x'); }
      else if j == 3 { ElementaryChargeMisses("xyz123", 'x'); }
      else if j == 4 { AvogadroConstantMisses("xyz123", 'x'); }
      else if j == 5 { BoltzmannConstantMisses("xyz123", 'x'); }
      else if j == 6 { GasConstantMisses("xyz123", 'x'); }
      else if j == 7 { GravityMisses("xyz123", 'x'); }
      else if j == 8 { PiRecordMisses("xyz123", 'x'); }
      else { EulerNumberMisses("xyz123", 'x'); }
    }
    assert Normalize("xyz123") == "xyz123";
    LookupNotFoundIff("xyz123");
  }

  /** "c" is the first record's own symbol. */
  lemma LookupC()
    ensures Lookup("c") == Format(Table()[0])
  {
    assert Normalize("c") == "c" == Lower(Table()[0].symbol);
    LookupFindsEarliest("c", 0);
  }

  /** "g" hits the 'g' of "light" before the gravity record's symbol is reached. */
  lemma LookupG()
    ensures Lookup("g") == Format(Table()[0])
  {
    assert Normalize("g") == "g" && Table()[0].key == "speed of light";
    assert OccursAt("g", Table()[0].key, 11);
    LookupFindsEarliest("g", 0);
  }

  /** "G", the gravitational constant's own symbol, is lower-cased to "g" first
      and so also answers with the speed of light. */
  lemma LookupUpperG()
    ensures Lookup("G") == Format(Table()[0])
  {
    LookupG();
    assert "G" == Upper("g");
    LookupIgnoresCaseAndPadding("g", "", "");
  }

  /** `str.title()` starts a new word after the apostrophe, so "euler's number"
      becomes "Euler'S Number". */
  lemma TitleOfEulerKey()
    ensures Title("euler's number")[0] == 'E' && Title("euler's number")[6] == 'S'
  {
    EulerKeyStartsWord();
    EulerKeyApostropheWord();
  }

  lemma EulerKeyStartsWord()
    ensures Title("euler's number")[0] == 'E'
  {
    var k := "euler's number";
    assert k[0] == 'e';
    TitleStartsWord(k, 0);
  }

  lemma EulerKeyApostropheWord()
    ensures Title("euler's number")[6] == 'S'
  {
    var k := "euler's number";
    assert k[5] == '\'';
    assert k[6] == 's';
    TitleStartsWord(k, 6);
  }

  /** The tenth record is printed as "Euler'S Number ...": an upper-case 'S'
      after the apostrophe. */
  lemma EulerTitleCase()
    ensures Format(Table()[9])[0] == 'E' && Format(Table()[9])[6] == 'S'
  {
    TitleOfEulerKey();
    var c := Table()[9];
    assert c.key == "euler's number";
    assert Format(c)[0] == Title(c.key)[0] && Format(c)[6] == Title(c.key)[6];
  }

  /** "k" hits "planck constant" before the Boltzmann constant's symbol is
      reached. */
  lemma LookupK()
    ensures Lookup("k") == Format(Table()[2])
  {
    forall j | 0 <= j < 2
      ensures !Matches("k", Table()[j])
    {
      if j == 0 { SpeedOfLightMisses("k", 'k'); } else { GravitationalConstantMisses("k", 'k'); }
    }
    assert Normalize("k") == "k" && Table()[2].key == "planck constant";
    assert OccursAt("k", Table()[2].key, 5);
    LookupFindsEarliest("k", 2);
  }
}
