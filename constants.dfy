/** The `lookup_constant` tool: a fixed, ordered table of ten physical and
    mathematical constants and a first-match search over it. A query matches a
    record when, after lower-casing and stripping, it is a substring of the
    record's key or equals its lower-cased symbol; the earliest matching record
    in table order is formatted, and a fixed hint is returned when none matches. */
module Constants {
  import opened AsciiText

  datatype Option<T> = None | Some(value: T)

  /** One record of the table. `value` is the number as Python's `str()` prints it. */
  datatype Constant = Constant(key: string, symbol: string, value: string, unit: string)

  /** The table, in the insertion order of the dictionary literal in
      `lookup_constant`. Its keys are distinct, as a dictionary's are, and
      already lower-case, so only the query needs normalising. */
  function Table(): (t: seq<Constant>)
    ensures |t| == 10
    ensures forall i, j :: 0 <= i < j < |t| ==> t[i].key != t[j].key
  {
    [ Constant("speed of light", "c", "299792458", "m/s"),
      Constant("gravitational constant", "G", "6.6743e-11", "m^3 kg^-1 s^-2"),
      Constant("planck constant", "h", "6.62607015e-34", "J·s"),
      Constant("elementary charge", "e", "1.602176634e-19", "C"),
      Constant("avogadro constant", "Nₐ", "6.02214076e+23", "mol⁻¹"),
      Constant("boltzmann constant", "k", "1.380649e-23", "J/K"),
      Constant("gas constant", "R", "8.314462618", "J/mol·K"),
      Constant("acceleration due to gravity", "g", "9.80665", "m/s²"),
      Constant("pi", "π", "3.1415926535", ""),
      Constant("euler's number", "e", "2.7182818284", "") ]
  }

  /** The hint returned when nothing matches. It is written as two literals only
      because the verifier does not unfold a string literal this long, and
      FormatIsNotNotFound needs its first character. */
  const NotFound: string := "Constant not found. " + "Try a common name or symbol like 'c', 'g', or 'pi'."

  /** `name.lower().strip()`: the query with no upper-case letter left and no
      whitespace at either end. */
  function Normalize(name: string): (q: string)
    ensures forall i :: 0 <= i < |q| ==> !IsUpper(q[i])
    ensures q == [] || (!IsSpace(q[0]) && !IsSpace(q[|q| - 1]))
  {
    StripKeepsNoUpper(Lower(name));
    Strip(Lower(name))
  }

  /** The test applied to each record: the query is a substring of the key, or
      equals the lower-cased symbol. So the empty query and the full key match
      the record, and any other match is no longer than the key or is the symbol. */
  predicate Matches(query: string, c: Constant)
    ensures query == [] ==> Matches(query, c)
    ensures query == c.key ==> Matches(query, c)
    ensures Matches(query, c) ==> |query| <= |c.key| || query == Lower(c.symbol)
  {
    EmptyIsSubstring(c.key);
    assert OccursAt(c.key, c.key, 0);
    IsSubstring(query, c.key) || query == Lower(c.symbol)
  }

  /** The formatted answer: "<Title-cased key> (<symbol>): <value> <unit>". It
      starts with the title-cased key, contains the value and ends with the unit. */
  function Format(c: Constant): (r: string)
    ensures |c.key| <= |r| && r[..|c.key|] == Title(c.key)
    ensures IsSubstring(c.value, r)
    ensures |c.unit| <= |r| && r[|r| - |c.unit|..] == c.unit
  {
    var head := Title(c.key) + " (" + c.symbol + "): ";
    var r := head + c.value + " " + c.unit;
    assert r[|head|..|head| + |c.value|] == c.value;
    assert OccursAt(c.value, r, |head|);
    r
  }

  /** The index of the first record of `table` that `query` matches, if any. */
  function FirstMatch(query: string, table: seq<Constant>): (r: Option<nat>)
    ensures r.Some? ==> r.value < |table| && Matches(query, table[r.value])
    ensures r.Some? ==> forall j :: 0 <= j < r.value ==> !Matches(query, table[j])
    ensures r.None? <==> forall j :: 0 <= j < |table| ==> !Matches(query, table[j])
  {
    if table == [] then None
    else if Matches(query, table[0]) then Some(0)
    else match FirstMatch(query, table[1..])
      case None => None
      case Some(i) => Some(i + 1)
  }

  /** A matching index with no match before it is the one FirstMatch picks. */
  lemma FirstMatchIsEarliest(query: string, table: seq<Constant>, i: nat)
    requires i < |table| && Matches(query, table[i])
    requires forall j :: 0 <= j < i ==> !Matches(query, table[j])
    ensures FirstMatch(query, table) == Some(i)
  {
  }

  /** What `lookup_constant(name)` returns: the formatted line of some record,
      or the hint. */
  function Lookup(name: string): (r: string)
    ensures r == NotFound || exists i :: 0 <= i < |Table()| && r == Format(Table()[i])
  {
    match FirstMatch(Normalize(name), Table())
    case Some(i) => Format(Table()[i])
    case None => NotFound
  }

  /** The tool itself: normalise the query once, then walk the table in order and
      return at the first record that matches. */
  method LookupConstant(name: string) returns (r: string)
    ensures r == Lookup(name)
  {
    var constants := Table();
    var query := Strip(Lower(name));
    var i := 0;
    while i < |constants|
      invariant 0 <= i <= |constants|
      invariant forall j :: 0 <= j < i ==> !Matches(query, constants[j])
    {
      if Matches(query, constants[i]) {
        FirstMatchIsEarliest(query, constants, i);
        return Format(constants[i]);
      }
      i := i + 1;
    }
    return NotFound;
  }

  /** No formatted record can be mistaken for the not-found hint: they differ in
      their first character. */
  lemma FormatIsNotNotFound(i: nat)
    requires i < |Table()|
    ensures Format(Table()[i]) != NotFound
  {
    var c := Table()[i];
    assert Format(c)[0] == Title(c.key)[0] == UpperChar(c.key[0]);
    assert NotFound[0] == 'C';
  }

  /** When record i matches and no earlier record does, the answer is record i's
      formatted line: later records never win. */
  lemma LookupFindsEarliest(name: string, i: nat)
    requires i < |Table()| && Matches(Normalize(name), Table()[i])
    requires forall j :: 0 <= j < i ==> !Matches(Normalize(name), Table()[j])
    ensures Lookup(name) == Format(Table()[i])
  {
  }

  /** The answer is the hint exactly when no record matches. */
  lemma LookupNotFoundIff(name: string)
    ensures Lookup(name) == NotFound <==> forall i :: 0 <= i < |Table()| ==> !Matches(Normalize(name), Table()[i])
  {
    var r := FirstMatch(Normalize(name), Table());
    if r.Some? {
      FormatIsNotNotFound(r.value);
    }
  }

  /** Surrounding whitespace is stripped away by normalisation. */
  lemma NormalizeIgnoresPadding(name: string, before: string, after: string)
    requires AllSpace(before) && AllSpace(after)
    ensures Normalize(before + name + after) == Normalize(name)
  {
    LowerAppend(before + name, after);
    LowerAppend(before, name);
    LowerOfSpaces(before);
    LowerOfSpaces(after);
    StripIgnoresPadding(before, Lower(name), after);
  }

  /** Letter case is folded away by normalisation. */
  lemma NormalizeIgnoresCase(name: string)
    ensures Normalize(Upper(name)) == Normalize(name)
    ensures Normalize(Lower(name)) == Normalize(name)
  {
    LowerOfUpper(name);
    LowerIdempotent(name);
  }

  /** The answer does not depend on letter case or on surrounding whitespace. */
  lemma LookupIgnoresCaseAndPadding(name: string, before: string, after: string)
    requires AllSpace(before) && AllSpace(after)
    ensures Lookup(before + name + after) == Lookup(name)
    ensures Lookup(Upper(name)) == Lookup(name)
    ensures Lookup(Lower(name)) == Lookup(name)
  {
    NormalizeIgnoresPadding(name, before, after);
    NormalizeIgnoresCase(name);
    SameNormalFormSameAnswer(before + name + after, name);
    SameNormalFormSameAnswer(Upper(name), name);
    SameNormalFormSameAnswer(Lower(name), name);
  }

  lemma SameNormalFormSameAnswer(x: string, y: string)
    requires Normalize(x) == Normalize(y)
    ensures Lookup(x) == Lookup(y)
  {
  }

  /** A blank query normalises to the empty string, which is a substring of every
      key, so it always answers with the first record, the speed of light. */
  lemma BlankQueryFindsFirst(name: string)
    requires AllSpace(name)
    ensures Lookup(name) == Format(Table()[0])
  {
    LowerOfSpaces(name);
    StripEmptyIffBlank(name);
    EmptyIsSubstring(Table()[0].key);
    FirstMatchIsEarliest(Normalize(name), Table(), 0);
  }
}
