# Calculator and constant-lookup tools, modelled in Dafny

The repository configures a handful of conversational agents. The math and
physics agents are given three small Python tools, defined in
`multi_agent_tool/tools.py`:

- `calculate_unary_operation(x, operation)` applies one of eleven named
  functions (`sqrt`, `log`, `log10`, `sin`, `cos`, `tan`, `asin`, `acos`,
  `atan`, `abs`, `exp`) to a float. Any other name raises
  `ValueError("Unsupported unary operation: <name>")`.
- `calculate_binary_operation(a, b, operator)` applies `+`, `-`, `*`, `/`,
  `%` or `**`. For `/` and `%` with a zero divisor it raises
  `ZeroDivisionError("Division by zero")` or `ZeroDivisionError("Modulo by zero")`.
  Any other operator raises `ValueError("Unsupported operator: <op>")`.
- `lookup_constant(name)` lower-cases and strips the query. It then walks a
  fixed table of ten constants in order. It returns the first record whose
  key contains the query, or whose lower-cased symbol equals it, formatted as
  `"<Key in title case> (<symbol>): <value> <unit>"`. If no record matches,
  it returns a fixed hint naming 'c', 'g' and 'pi'.

The project has four modules:

- `AsciiText` (`text.dfy`) models the string operations the lookup uses:
  `str.lower`, `str.strip`, `str.title` and the `in` substring test. It also
  defines upper-casing, which the lookup never does, so that case-insensitivity
  can be stated.
- `Constants` (`constants.dfy`) holds the table and the search. The search is
  specified by a recursive function, `FirstMatch`. `LookupConstant` is the
  tool's loop, proved against that function.
- `LookupExamples` (`lookup_examples.dfy`) proves what concrete queries
  return.
- `Calculator` (`calculator.dfy`) models the two calculator tools over exact
  reals. The `math` functions and `**` are passed in as a `MathLib` value.

Each calculator tool's if/elif chain is also written a second way, as a dispatch map
from names to functions. The chain is proved to answer as a lookup
in that map does, with the unsupported-name error as the fallback.

The first-match policy has consequences that are easy to overlook, and they
are proved here:
- `lookup_constant("c")` returns the speed of light, not the gravitational
  constant.
- `"g"` and `"G"` also return the speed of light, because "g" occurs in
  "speed of light".
- `"k"` returns the Planck constant, because "k" occurs in "planck".
- A blank query returns the first record.

## Model

The table lists the members that carry a contract. Four definitions have no
contract of their own and so no row:
- `Constants.NotFound` is the hint of `multi_agent_tool/tools.py:124`. `LookupUnknown` states its text.
- `Calculator.IsFloorRemainder` defines Python's `%` (`multi_agent_tool/tools.py:98`). `FloorRemainderUnique` shows that it has exactly one solution.
- `Calculator.UnsupportedUnary` and `Calculator.UnsupportedBinary` build the ValueError messages of `multi_agent_tool/tools.py:64` and `:102`. `CalculateUnary` and `CalculateBinary` state when each is raised.

| member | source | states |
|---|---|---|
| AsciiText.LowerChar | multi_agent_tool/tools.py:119 | an upper-case ASCII letter becomes the matching lower-case letter (code point + 32); every other character is unchanged |
| AsciiText.Lower | multi_agent_tool/tools.py:119 | `lower()` keeps the length and lower-cases each character in place |
| AsciiText.Upper | multi_agent_tool/tools.py:119 | the opposite case mapping, keeping the length, used to state case-insensitivity |
| AsciiText.LowerOfUpper | multi_agent_tool/tools.py:119 | lower-casing an upper-cased string gives the same result as lower-casing the original |
| AsciiText.LowerIdempotent | multi_agent_tool/tools.py:119 | lower-casing twice is the same as lower-casing once |
| AsciiText.LowerAppend | multi_agent_tool/tools.py:119 | lower-casing distributes over concatenation |
| AsciiText.LowerOfSpaces | multi_agent_tool/tools.py:119 | whitespace has no case: lower-casing leaves an all-space string unchanged |
| AsciiText.IsSpace | multi_agent_tool/tools.py:119 | the characters `strip()` removes (ASCII 9–13 and 28–32); none of them is a letter, so lower-casing never touches them |
| AsciiText.TrimStart | multi_agent_tool/tools.py:119 | `lstrip()`: the result is no longer than the input and does not start with whitespace |
| AsciiText.TrimEnd | multi_agent_tool/tools.py:119 | `rstrip()`: the result is no longer than the input and does not end with whitespace |
| AsciiText.Strip | multi_agent_tool/tools.py:119 | `strip()`: the result neither starts nor ends with whitespace |
| AsciiText.TrimStartRemovesLeadingSpaces | multi_agent_tool/tools.py:119 | the left-stripped string is a suffix of the input, and what was removed is all whitespace; with TrimStart's contract, exactly the longest whitespace prefix is removed |
| AsciiText.TrimEndRemovesTrailingSpaces | multi_agent_tool/tools.py:119 | the right-stripped string is a prefix of the input, and what was removed is all whitespace; with TrimEnd's contract, exactly the longest whitespace suffix is removed |
| AsciiText.StripIsSubstring | multi_agent_tool/tools.py:119 | what `strip()` leaves is a contiguous piece of the input |
| AsciiText.StripKeepsNoUpper | multi_agent_tool/tools.py:119 | stripping a string with no upper-case letter leaves none, so `lower()` followed by `strip()` yields a lower-case query |
| AsciiText.TrimStartSkipsSpaces | multi_agent_tool/tools.py:119 | extra leading whitespace does not change the left-stripped result |
| AsciiText.TrimEndSkipsSpaces | multi_agent_tool/tools.py:119 | extra trailing whitespace does not change the right-stripped result |
| AsciiText.StripIgnoresTrailingSpaces | multi_agent_tool/tools.py:119 | trailing whitespace does not change the stripped result |
| AsciiText.StripIgnoresPadding | multi_agent_tool/tools.py:119 | whitespace padding on either side does not change the stripped result |
| AsciiText.StripEmptyIffBlank | multi_agent_tool/tools.py:119 | `strip()` gives the empty string exactly when the input is all whitespace |
| AsciiText.TitleChar | multi_agent_tool/tools.py:122 | `title()` on one character: only its case changes; a letter is upper-cased exactly when it does not follow a letter, and lower-cased exactly when it does; other characters are kept |
| AsciiText.TitleFrom | multi_agent_tool/tools.py:122 | the title-casing scan keeps the length |
| AsciiText.TitleFromAt | multi_agent_tool/tools.py:122 | each character is upper-cased when it follows a non-letter, and lower-cased when it follows a letter |
| AsciiText.Title | multi_agent_tool/tools.py:122 | `title()` keeps the length; a character that starts a word is upper-cased and every other letter is lower-cased |
| AsciiText.TitleStartsWord | multi_agent_tool/tools.py:122 | a character that starts a word, whether it is first or follows a non-letter such as an apostrophe, is upper-cased |
| AsciiText.TitleOnlyChangesCase | multi_agent_tool/tools.py:122 | title-casing changes only letter case: both strings lower-case to the same string |
| AsciiText.IsSubstring | multi_agent_tool/tools.py:121 | Python's `needle in hay`: the needle occurs at some position of the haystack, so it is no longer than the haystack |
| AsciiText.EmptyIsSubstring | multi_agent_tool/tools.py:121 | the empty query is `in` every key |
| AsciiText.MissingCharNotSubstring | multi_agent_tool/tools.py:121 | a query containing a character that the key lacks is not `in` the key |
| AsciiText.OccursInSuffix | multi_agent_tool/tools.py:121 | an occurrence in a suffix is the same as an occurrence at the shifted position in the whole string |
| AsciiText.OccursInPrefix | multi_agent_tool/tools.py:121 | an occurrence that fits inside a prefix survives appending more text |
| AsciiText.SubstringOfJoin | multi_agent_tool/tools.py:121 | a needle occurs in a + b exactly when it occurs in a, or starts in the last \|needle\|-1 characters of a, or occurs in b |
| Constants.Table | multi_agent_tool/tools.py:106-117 | the ten records in the order of the dictionary literal; the keys are pairwise distinct, as a dictionary's keys are |
| Constants.Normalize | multi_agent_tool/tools.py:119 | `name.lower().strip()`: the query holds no upper-case letter and has no whitespace at either end |
| Constants.Matches | multi_agent_tool/tools.py:121 | the record test: the empty query matches every record, the full key matches its record, and any other match is no longer than the key or is the lower-cased symbol |
| Constants.Format | multi_agent_tool/tools.py:122 | the answer line starts with the title-cased key, contains the value, and ends with the unit |
| Constants.FirstMatch | multi_agent_tool/tools.py:120-122 | if an index is returned, that record matches and no earlier record does; nothing is returned exactly when no record matches |
| Constants.FirstMatchIsEarliest | multi_agent_tool/tools.py:120-122 | a matching index with no match before it is the index the search returns |
| Constants.Lookup | multi_agent_tool/tools.py:119-124 | the answer is either the not-found hint or the formatted line of one of the records |
| Constants.LookupConstant | multi_agent_tool/tools.py:105-124 | the loop returns what the first-match specification `Lookup` prescribes: the earliest matching record, formatted, or else the hint |
| Constants.FormatIsNotNotFound | multi_agent_tool/tools.py:122-124 | no formatted record equals the not-found hint, so the two outcomes can be told apart |
| Constants.LookupFindsEarliest | multi_agent_tool/tools.py:120-122 | when record i matches and no earlier record does, the answer is record i's formatted line; a later record never wins |
| Constants.LookupNotFoundIff | multi_agent_tool/tools.py:119-124 | the answer is the hint exactly when the normalised query matches no record |
| Constants.NormalizeIgnoresPadding | multi_agent_tool/tools.py:119 | whitespace before or after the query is removed by normalisation |
| Constants.NormalizeIgnoresCase | multi_agent_tool/tools.py:119 | upper- and lower-cased forms of a query normalise to the same string |
| Constants.SameNormalFormSameAnswer | multi_agent_tool/tools.py:119-124 | the answer depends only on the normalised query |
| Constants.LookupIgnoresCaseAndPadding | multi_agent_tool/tools.py:119-124 | padding a query with whitespace, upper-casing it or lower-casing it does not change the answer |
| Constants.BlankQueryFindsFirst | multi_agent_tool/tools.py:119-122 | an empty or all-whitespace query answers with the first record (speed of light) |
| LookupExamples.PiNotInSpeedOfLight | multi_agent_tool/tools.py:107 | "pi" does not occur in "speed of light", although both its letters do |
| LookupExamples.SpeedOfLightMissesPi | multi_agent_tool/tools.py:107-121 | "pi" does not match the speed-of-light record: it is not in the key and is not the symbol "c" |
| LookupExamples.PiMissesEarlierRecords | multi_agent_tool/tools.py:107-121 | neither "pi" nor "π" matches any of the eight records before pi |
| LookupExamples.LookupPiByName | multi_agent_tool/tools.py:106-122 | `lookup_constant("pi")` answers with the pi record |
| LookupExamples.LookupPiBySymbol | multi_agent_tool/tools.py:106-122 | `lookup_constant("π")` answers with the pi record |
| LookupExamples.PaddedUpperPi | multi_agent_tool/tools.py:119 | " PI " answers as "PI" does |
| LookupExamples.UpperPi | multi_agent_tool/tools.py:119 | "PI" answers as "pi" does |
| LookupExamples.LookupPaddedPi | multi_agent_tool/tools.py:106-122 | " PI " answers with the pi record |
| LookupExamples.LookupPi | multi_agent_tool/tools.py:106-122 | "pi", "π" and " PI " all give exactly "Pi (π): 3.1415926535 ", which contains 3.1415926535 |
| LookupExamples.PiFormat | multi_agent_tool/tools.py:115-122 | the pi record is printed as "Pi (π): 3.1415926535 ", with a trailing space for its empty unit |
| LookupExamples.PiRecordFormat | multi_agent_tool/tools.py:122 | the same line, computed from the record's fields |
| LookupExamples.PiTitle | multi_agent_tool/tools.py:122 | `title()` of "pi" is "Pi" |
| LookupExamples.LookupUnknown | multi_agent_tool/tools.py:106-124 | "xyz123" matches nothing and gets exactly the not-found hint |
| LookupExamples.LookupC | multi_agent_tool/tools.py:106-122 | "c" answers with the speed of light, the first record, whose symbol is c |
| LookupExamples.LookupG | multi_agent_tool/tools.py:106-122 | "g" answers with the speed of light, since "g" occurs in its key, not with the gravity record |
| LookupExamples.LookupUpperG | multi_agent_tool/tools.py:106-122 | "G" is lower-cased first, so it also answers with the speed of light, not the gravitational constant |
| LookupExamples.LookupK | multi_agent_tool/tools.py:106-122 | "k" answers with the Planck constant, since "k" occurs in "planck", not with Boltzmann's k |
| LookupExamples.TitleOfEulerKey | multi_agent_tool/tools.py:116-122 | `title()` of "euler's number" starts with 'E' and upper-cases the 's' after the apostrophe |
| LookupExamples.EulerKeyStartsWord | multi_agent_tool/tools.py:116-122 | `title()` of "euler's number" starts with 'E' |
| LookupExamples.EulerKeyApostropheWord | multi_agent_tool/tools.py:116-122 | `title()` of "euler's number" upper-cases the 's' after the apostrophe, at position 6 |
| LookupExamples.EulerTitleCase | multi_agent_tool/tools.py:116-122 | Euler's number is printed as "Euler'S …": the 's' after the apostrophe is upper-cased |
| Calculator.Abs | multi_agent_tool/tools.py:59-60 | `abs(x)` is non-negative and equals x or -x |
| Calculator.CalculateUnary | multi_agent_tool/tools.py:23-64 | an unsupported name raises ValueError("Unsupported unary operation: " + name); "abs" always succeeds with \|x\| |
| Calculator.UnaryTable | multi_agent_tool/tools.py:41-64 | the same dispatch written as a name-to-function map; its keys are exactly the eleven supported names |
| Calculator.UnaryAgreesWithTable | multi_agent_tool/tools.py:41-64 | the if/elif chain answers as a lookup in UnaryTable does: each supported name runs its own library function (abs runs \|x\|), and any other name gets the ValueError |
| Calculator.Frac | multi_agent_tool/tools.py:98 | the fractional part of a real lies in [0, 1) |
| Calculator.FloorMod | multi_agent_tool/tools.py:98 | Python's float `%`: a - r is a whole multiple of b, and r lies between 0 and b with the divisor's sign |
| Calculator.FloorModIsFloorRemainder | multi_agent_tool/tools.py:98 | b * frac(a / b) is a floored remainder of a by b |
| Calculator.FloorRemainderUnique | multi_agent_tool/tools.py:95-98 | only one number is a floored remainder of a by b, so FloorMod is the only possible value of Python's `%` |
| Calculator.CalculateBinary | multi_agent_tool/tools.py:67-102 | an unknown operator raises ValueError("Unsupported operator: " + op); + and - return values that the other undoes; `*` returns a * b for every b, zero included; / and % with a zero divisor raise the exact ZeroDivisionError messages, and otherwise return the q with q * b = a and the floored remainder; `**` returns whatever pow returns |
| Calculator.BinaryTable | multi_agent_tool/tools.py:85-102 | the same dispatch written as an operator-to-function map; its keys are exactly + - * / % ** |
| Calculator.BinaryAgreesWithTable | multi_agent_tool/tools.py:85-102 | the if/elif chain answers as a lookup in BinaryTable does: each operator runs its own function (** runs the library's pow), and any other operator gets the ValueError |
| Calculator.BinaryErrorsIff | multi_agent_tool/tools.py:91-102 | apart from **, ZeroDivisionError is raised exactly when / or % gets a zero divisor, and the unsupported-operator ValueError exactly when the operator is unknown |
| Calculator.AddSubtractInverse | multi_agent_tool/tools.py:85-88 | over exact reals, adding b and then subtracting b gives back a, and the reverse |
| Calculator.DivisionAndModulo | multi_agent_tool/tools.py:91-98 | with b ≠ 0, `/` gives the q with q * b = a, and `%` gives the floored remainder |
| Calculator.MultiplyDivideInverse | multi_agent_tool/tools.py:89-94 | over exact reals and with b ≠ 0, multiplying by b and then dividing by b gives back a, and the reverse |
| Calculator.MultiplyAndDivide | multi_agent_tool/tools.py:89-94 | `*` succeeds with a * b for every b, zero included, and `/` with a / b whenever b ≠ 0 |
| Calculator.ModuloFollowsDivisorSign | multi_agent_tool/tools.py:95-98 | the remainder takes the divisor's sign: -7 % 3 = 2, 7 % -3 = -2 and 5.5 % 2 = 1.5 |

## Left out

- `find_related_info` (`multi_agent_tool/tools.py:6-19`) only calls the
  agent framework's memory service and reshapes the reply, so it is not part
  of this model. The framework is outside the repository.
- The agent definitions in `multi_agent_tool/agent.py` are not part of this
  model. They are configuration for a hosted language-model framework, and
  their routing is decided by the model.
- Python floats are modelled as exact reals. The model has no rounding, no
  infinities, no NaN, no negative zero and no overflow. In particular, the
  case where `a * b` or `a ** b` overflows is not modelled.
- The `math` functions and `**` are not defined here. They are supplied as a
  `MathLib` parameter. The model proves that each tool hands them the operand
  and returns their real value or their exception unchanged. It says nothing
  about their own domain errors or about pow raising ZeroDivisionError for
  `0.0 ** -1`.
- Python's `**` returns a complex number for a negative base and a
  non-integer exponent (`(-8.0) ** (1/3)`). A `Result<real>` cannot hold one,
  so the model covers only pow's real results and its exceptions.
- `str.lower`, `str.title` and `str.strip` are modelled on ASCII
  only: letters A–Z and a–z, and whitespace characters 9–13 and 28–32. Python
  also folds non-ASCII letters (for example "Π" to "π") and strips Unicode
  spaces. A query that relies on those behaves differently here.
- The constants' values are kept as the strings Python's `str()` prints for
  them (for example "6.6743e-11" and "6.02214076e+23"). Float-to-text
  rendering is not modelled.
- Calculator.CalculateUnary: apart from `abs`, its contract does not name the
  value of each branch. `UnaryAgreesWithTable` states it: each name calls its
  own library function.
