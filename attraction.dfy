/** attraction.go: the record a client posts, the rule chain that validates
    it, the id normaliser `toID` and `wrap`, which builds the record stored
    in the cache. */
module Attractions {
  import opened GoLib
  import opened Utils

  // ---------------------------------------------------------------------
  // Records

  datatype Hours = Hours(wkd: string, std: string, snd: string)

  datatype Description = Description(name: string, hours: Hours, info: string)

  /** The float32 coordinates, as reals. */
  datatype Coordinates = Coordinates(latitude: real, longitude: real)

  datatype Location = Location(city: string, coordinates: Coordinates)

  datatype Image = Image(url: string, copyright: string)

  /** The decoded request body. */
  datatype RawAttraction = RawAttraction(
    category: string, description: Description, location: Location, image: Image)

  /** The record stored in the cache and sent to an external database;
      description and location are JSON texts. */
  datatype Attraction = Attraction(
    id: string, category: string, description: string, location: string,
    name: string, url: NullString, copyright: NullString)

  // ---------------------------------------------------------------------
  // toID

  /** The Lithuanian letters of the character classes in regex_lith and
      regex_lith_chars_spaces: U+0104-0105, 010C-010D, 0116-0119, 012E-012F,
      0160-0161, 016A-016B, 0172-0173 and 017E-017F. */
  predicate LithuanianLetter(c: char)
  {
    ('\U{0104}' <= c <= '\U{0105}') || ('\U{010C}' <= c <= '\U{010D}')
    || ('\U{0116}' <= c <= '\U{0119}') || ('\U{012E}' <= c <= '\U{012F}')
    || ('\U{0160}' <= c <= '\U{0161}') || ('\U{016A}' <= c <= '\U{016B}')
    || ('\U{0172}' <= c <= '\U{0173}') || ('\U{017E}' <= c <= '\U{017F}')
  }

  /** What regex_lith_chars_spaces matches: one Lithuanian letter or a space. */
  predicate Stripped(c: char)
  {
    c == ' ' || LithuanianLetter(c)
  }

  /** unicode.ToLower on Basic Latin, Latin-1 Supplement and Latin
      Extended-A (U+0000-U+017F); every other code point is left as it is. */
  function Lower(c: char): char
  {
    var n := c as int;
    if 'A' <= c <= 'Z' then (n + 32) as char
    else if 0xC0 <= n <= 0xDE && n != 0xD7 then (n + 32) as char
    else if (0x100 <= n <= 0x12F || 0x132 <= n <= 0x137 || 0x14A <= n <= 0x177) && n % 2 == 0 then (n + 1) as char
    else if n == 0x130 then 'i'
    else if (0x139 <= n <= 0x148 || 0x179 <= n <= 0x17E) && n % 2 == 1 then (n + 1) as char
    else if n == 0x178 then '\U{00FF}'
    else c
  }

  /** regex_lith_chars_spaces.ReplaceAllString(s, ""): every matched
      character is deleted, all others kept in order. */
  function StripLithuanian(s: string): (r: string)
    ensures |r| <= |s|
    ensures forall i :: 0 <= i < |r| ==> !Stripped(r[i])
    ensures forall i :: 0 <= i < |s| && !Stripped(s[i]) ==> s[i] in r
    ensures forall c :: c in r ==> c in s
  {
    if |s| == 0 then ""
    else if Stripped(s[0]) then StripLithuanian(s[1..])
    else [s[0]] + StripLithuanian(s[1..])
  }

  /** strings.ToLower, one code point at a time. */
  function ToLower(s: string): (r: string)
    ensures |r| == |s|
    ensures forall i :: 0 <= i < |s| ==> r[i] == Lower(s[i])
  {
    if |s| == 0 then "" else [Lower(s[0])] + ToLower(s[1..])
  }

  /** toID: strip, then lowercase. */
  function ToID(source: string): (id: string)
    ensures |id| <= |source|
  {
    ToLower(StripLithuanian(source))
  }

  // ---------------------------------------------------------------------
  // Properties of toID

  /** Lowercasing never produces a space and maps only Ž (U+017D) from a
      kept character to a stripped one. */
  lemma LowerIntoStripped(c: char)
    ensures Lower(c) == ' ' <==> c == ' '
    ensures !Stripped(c) && Stripped(Lower(c)) <==> c == '\U{017D}'
  {
  }

  /** Lowercase letters are fixed points of Lower. */
  lemma LowerIdempotent(c: char)
    ensures Lower(Lower(c)) == Lower(c)
  {
  }

  /** toID works character by character: it distributes over concatenation. */
  lemma {:induction false} ToIDAppend(s: string, t: string)
    ensures ToID(s + t) == ToID(s) + ToID(t)
  {
    StripAppend(s, t);
    LowerAppend(StripLithuanian(s), StripLithuanian(t));
  }

  lemma {:induction false} StripAppend(s: string, t: string)
    ensures StripLithuanian(s + t) == StripLithuanian(s) + StripLithuanian(t)
  {
    if |s| > 0 {
      assert (s + t)[1..] == s[1..] + t;
      StripAppend(s[1..], t);
    } else {
      assert s + t == t;
    }
  }

  lemma LowerAppend(s: string, t: string)
    ensures ToLower(s + t) == ToLower(s) + ToLower(t)
  {
  }

  /** The single-character cases: a stripped character is deleted, not
      transliterated; any other character is lowercased. */
  lemma ToIDOneCharacter(c: char)
    ensures Stripped(c) ==> ToID([c]) == ""
    ensures !Stripped(c) ==> ToID([c]) == [Lower(c)]
  {
  }

  /** An id never contains a space, and holds exactly the lowercased kept
      characters of the name. */
  lemma ToIDCharacters(s: string)
    ensures ' ' !in ToID(s)
    ensures forall i :: 0 <= i < |s| && !Stripped(s[i]) ==> Lower(s[i]) in ToID(s)
    ensures forall c :: c in ToID(s) ==> exists i :: 0 <= i < |s| && !Stripped(s[i]) && c == Lower(s[i])
  {
    var k := StripLithuanian(s);
    forall c | c in ToID(s)
      ensures exists i :: 0 <= i < |s| && !Stripped(s[i]) && c == Lower(s[i])
    {
      var j :| 0 <= j < |k| && ToID(s)[j] == c;
      assert k[j] in s;
      var i :| 0 <= i < |s| && s[i] == k[j];
      assert !Stripped(s[i]) && c == Lower(s[i]);
    }
    forall i | 0 <= i < |s| && !Stripped(s[i])
      ensures Lower(s[i]) in ToID(s)
    {
      var j :| 0 <= j < |k| && k[j] == s[i];
      assert ToID(s)[j] == Lower(s[i]);
    }
    if ' ' in ToID(s) {
      var j :| 0 <= j < |k| && ToID(s)[j] == ' ';
      LowerIntoStripped(k[j]);
    }
  }

  /** Stripping removes at least one character of a string holding a
      stripped one. */
  lemma {:induction false} StripShrinks(s: string)
    requires exists i :: 0 <= i < |s| && Stripped(s[i])
    ensures |StripLithuanian(s)| < |s|
  {
    if !Stripped(s[0]) {
      var i :| 0 <= i < |s| && Stripped(s[i]);
      assert Stripped(s[1..][i - 1]);
      StripShrinks(s[1..]);
    }
  }

  /** A string without stripped characters is left as it is. */
  lemma {:induction false} StripKeepsClean(s: string)
    requires forall i :: 0 <= i < |s| ==> !Stripped(s[i])
    ensures StripLithuanian(s) == s
  {
    if |s| > 0 {
      StripKeepsClean(s[1..]);
    }
  }

  /** toID is idempotent exactly on the names without Ž (U+017D): that
      capital is not stripped but its lowercase ž (U+017E) is, so a second
      pass deletes it. */
  lemma ToIDIdempotentIffNoZCaron(s: string)
    ensures ToID(ToID(s)) == ToID(s) <==> '\U{017D}' !in s
  {
    if '\U{017D}' in s {
      ZCaronShrinksSecondPass(s);
    } else {
      NoZCaronIdempotent(s);
    }
  }

  lemma {:induction false} NoZCaronIdempotent(s: string)
    requires '\U{017D}' !in s
    ensures ToID(ToID(s)) == ToID(s)
  {
    if |s| > 0 {
      var c := s[0];
      assert s == [c] + s[1..];
      ToIDAppend([c], s[1..]);
      ToIDAppend(ToID([c]), ToID(s[1..]));
      NoZCaronIdempotent(s[1..]);
      ToIDOneCharacter(c);
      if !Stripped(c) {
        LowerIntoStripped(c);
        LowerIdempotent(c);
        ToIDOneCharacter(Lower(c));
      }
    }
  }

  lemma {:induction false} ZCaronShrinksSecondPass(s: string)
    requires '\U{017D}' in s
    ensures |ToID(ToID(s))| < |ToID(s)|
  {
    var c, t := s[0], s[1..];
    assert |ToID(ToID(s))| == |ToID(ToID([c]))| + |ToID(ToID(t))|
      && |ToID(s)| == |ToID([c])| + |ToID(t)| by {
      assert s == [c] + t;
      ToIDAppend([c], t);
      ToIDAppend(ToID([c]), ToID(t));
    }
    if c == '\U{017D}' {
      assert |ToID(ToID([c]))| == 0 && |ToID([c])| == 1 by {
        ZCaronExample();
      }
      assert |ToID(ToID(t))| <= |ToID(t)|;
    } else {
      assert '\U{017D}' in t;
      ZCaronShrinksSecondPass(t);
      assert |ToID(ToID([c]))| <= |ToID([c])|;
    }
  }

  /** Ž becomes ž, and ž is deleted: the smallest witness that toID is not
      idempotent. */
  lemma ZCaronExample()
    ensures ToID(['\U{017D}']) == ['\U{017E}'] && ToID(['\U{017E}']) == ""
  {
    ToIDOneCharacter('\U{017D}');
    ToIDOneCharacter('\U{017E}');
  }

  /** Lowercasing never yields an ASCII capital, and below 'A' it changes
      nothing. */
  lemma LowerRange(c: char)
    ensures !('A' <= Lower(c) <= 'Z')
    ensures Lower(c) < 'A' ==> Lower(c) == c
  {
  }

  /** An id holds neither spaces nor ASCII capitals. */
  lemma ToIDNoSpacesNoCapitals(s: string)
    ensures forall i :: 0 <= i < |ToID(s)| ==> ToID(s)[i] != ' ' && !('A' <= ToID(s)[i] <= 'Z')
  {
    var k := StripLithuanian(s);
    forall i | 0 <= i < |ToID(s)|
      ensures ToID(s)[i] != ' ' && !('A' <= ToID(s)[i] <= 'Z')
    {
      LowerIntoStripped(k[i]);
      LowerRange(k[i]);
    }
  }

  /** On ASCII text (where no Ž can occur) normalising an id again changes
      nothing. */
  lemma ToIDIdempotentOnAscii(s: string)
    requires forall i :: 0 <= i < |s| ==> s[i] < '\U{0080}'
    ensures ToID(ToID(s)) == ToID(s)
  {
    assert '\U{017D}' !in s;
    NoZCaronIdempotent(s);
  }

  // ---------------------------------------------------------------------
  // validateAttraction

  /** len() of a Go string: the number of bytes of its UTF-8 encoding. */
  function RuneLen(c: char): nat
  {
    if c < '\U{0080}' then 1 else if c < '\U{0800}' then 2 else if c < '\U{10000}' then 3 else 4
  }

  function ByteLen(s: string): (n: nat)
    ensures |s| <= n <= 4 * |s|
  {
    if |s| == 0 then 0 else RuneLen(s[0]) + ByteLen(s[1..])
  }

  lemma {:induction false} ByteLenAscii(s: string)
    requires forall i :: 0 <= i < |s| ==> s[i] < '\U{0080}'
    ensures ByteLen(s) == |s|
  {
    if |s| > 0 {
      ByteLenAscii(s[1..]);
    }
  }

  /** One character of regex_lith: the range [A-z] (which also holds the
      six characters [ \ ] ^ _ and backquote) or a Lithuanian letter. */
  predicate CityCharacter(c: char)
  {
    ('A' <= c <= 'z') || LithuanianLetter(c)
  }

  /** regex_lith.MatchString: unanchored, so one such character anywhere
      is enough. */
  predicate CityMatches(city: string)
  {
    exists i :: 0 <= i < |city| && CityCharacter(city[i])
  }

  predicate Digit(c: char)
  {
    '0' <= c <= '9'
  }

  /** The pattern DD:DD-DD:DD of regex_hours starting at position i. */
  predicate HoursAt(s: string, i: nat)
    requires i + 11 <= |s|
  {
    Digit(s[i]) && Digit(s[i + 1]) && s[i + 2] == ':' && Digit(s[i + 3]) && Digit(s[i + 4])
    && s[i + 5] == '-'
    && Digit(s[i + 6]) && Digit(s[i + 7]) && s[i + 8] == ':' && Digit(s[i + 9]) && Digit(s[i + 10])
  }

  /** regex_hours.MatchString: the pattern anywhere in the field. */
  predicate HoursMatch(s: string)
  {
    exists i: nat :: i + 11 <= |s| && HoursAt(s, i)
  }

  const ViableCategories: seq<string> := ["nature", "heritage", "museums"]

  /** The rules of validateAttraction, in the order they are checked. */
  datatype Rule = InfoLength | NameLength | City | OpenHours | Category | InLithuania

  const RuleOrder: seq<Rule> := [InfoLength, NameLength, City, OpenHours, Category, InLithuania]

  predicate Holds(rule: Rule, ra: RawAttraction)
  {
    match rule
    case InfoLength => ByteLen(ra.description.info) > 30
    case NameLength => ByteLen(ra.description.name) > 3
    case City => ByteLen(ra.location.city) > 3 && CityMatches(ra.location.city)
    case OpenHours =>
      HoursMatch(ra.description.hours.wkd) && HoursMatch(ra.description.hours.std)
      && HoursMatch(ra.description.hours.snd)
    case Category => ra.category in ViableCategories
    case InLithuania =>
      var p := ra.location.coordinates;
      !(p.latitude > 56.27 || p.latitude < 53.53 || p.longitude > 26.5 || p.longitude < 20.56)
  }

  function Message(rule: Rule): string
  {
    match rule
    case InfoLength => "Object description is too short"
    case NameLength => "Name is too short"
    case City => "City is invalid"
    case OpenHours => "Invalid open hours"
    case Category => "Invalid category"
    case InLithuania => "Location is outside of Lithuania"
  }

  /** The first rule of `rules` that `ra` breaks, if any. */
  function FirstBroken(rules: seq<Rule>, ra: RawAttraction): (r: Option<Rule>)
    ensures r.None? <==> forall k :: 0 <= k < |rules| ==> Holds(rules[k], ra)
    ensures r.Some? ==> exists k :: (0 <= k < |rules| && rules[k] == r.value && !Holds(rules[k], ra)
      && forall j :: 0 <= j < k ==> Holds(rules[j], ra))
  {
    if |rules| == 0 then None
    else if !Holds(rules[0], ra) then Some(rules[0])
    else
      var r := FirstBroken(rules[1..], ra);
      assert r.Some? ==> exists k :: (0 <= k < |rules| && rules[k] == r.value && !Holds(rules[k], ra)
        && forall j :: 0 <= j < k ==> Holds(rules[j], ra)) by {
        if r.Some? {
          var k :| 0 <= k < |rules[1..]| && rules[1..][k] == r.value && !Holds(rules[1..][k], ra)
            && forall j :: 0 <= j < k ==> Holds(rules[1..][j], ra);
          assert forall j :: 0 <= j < k + 1 ==> Holds(rules[j], ra) by {
            forall j | 0 <= j < k + 1
              ensures Holds(rules[j], ra)
            {
              if j > 0 {
                assert rules[j] == rules[1..][j - 1];
              }
            }
          }
        }
      }
      r
  }

  /** The outcome validateAttraction promises: the decoding error if the
      body did not decode, else the message of the first broken rule, else
      the record itself. */
  function Validation(decoded: Result<RawAttraction>): Result<RawAttraction>
  {
    match decoded
    case Err(msg) => Err(msg)
    case Ok(ra) =>
      match FirstBroken(RuleOrder, ra)
      case None => Ok(ra)
      case Some(rule) => Err(Message(rule))
  }

  /** validateAttraction after validateJson: the decoding result is passed
      in, and the checks run in source order with an early return each. */
  method ValidateAttraction(decoded: Result<RawAttraction>) returns (r: Result<RawAttraction>)
    ensures r == Validation(decoded)
  {
    if decoded.Err? {
      return Err(decoded.msg);
    }
    var ra := decoded.value;
    ValidationChain(ra);
    if ByteLen(ra.description.info) <= 30 {
      return Err("Object description is too short");
    }
    if ByteLen(ra.description.name) <= 3 {
      return Err("Name is too short");
    }
    if ByteLen(ra.location.city) <= 3 || !CityMatches(ra.location.city) {
      return Err("City is invalid");
    }
    var hours := [ra.description.hours.wkd, ra.description.hours.std, ra.description.hours.snd];
    for k := 0 to |hours|
      invariant forall j :: 0 <= j < k ==> HoursMatch(hours[j])
    {
      if !HoursMatch(hours[k]) {
        assert !Holds(OpenHours, ra);
        return Err("Invalid open hours");
      }
    }
    assert Holds(OpenHours, ra) by {
      assert HoursMatch(hours[0]) && HoursMatch(hours[1]) && HoursMatch(hours[2]);
    }
    var viable := SliceContains(ra.category, ViableCategories);
    if !viable {
      return Err("Invalid category");
    }
    var p := ra.location.coordinates;
    if p.latitude > 56.27 || p.latitude < 53.53 || p.longitude > 26.5 || p.longitude < 20.56 {
      return Err("Location is outside of Lithuania");
    }
    return Ok(ra);
  }

  /** Validation spelled out as the chain of checks with their messages. */
  lemma ValidationChain(ra: RawAttraction)
    ensures Validation(Ok(ra)) ==
      if !Holds(InfoLength, ra) then Err("Object description is too short")
      else if !Holds(NameLength, ra) then Err("Name is too short")
      else if !Holds(City, ra) then Err("City is invalid")
      else if !Holds(OpenHours, ra) then Err("Invalid open hours")
      else if !Holds(Category, ra) then Err("Invalid category")
      else if !Holds(InLithuania, ra) then Err("Location is outside of Lithuania")
      else Ok(ra)
  {
    RuleOrderInSequence(ra);
  }

  /** The first broken rule of RuleOrder, one rule after the other. */
  lemma RuleOrderInSequence(ra: RawAttraction)
    ensures FirstBroken(RuleOrder, ra) ==
      if !Holds(InfoLength, ra) then Some(InfoLength)
      else if !Holds(NameLength, ra) then Some(NameLength)
      else if !Holds(City, ra) then Some(City)
      else if !Holds(OpenHours, ra) then Some(OpenHours)
      else if !Holds(Category, ra) then Some(Category)
      else if !Holds(InLithuania, ra) then Some(InLithuania)
      else None
  {
    var r5: seq<Rule> := [InLithuania];
    var r4 := [Category] + r5;
    var r3 := [OpenHours] + r4;
    var r2 := [City] + r3;
    var r1 := [NameLength] + r2;
    assert RuleOrder == [InfoLength] + r1;
    assert r5[1..] == [] && r4[1..] == r5 && r3[1..] == r4 && r2[1..] == r3 && r1[1..] == r2;
    assert ([InfoLength] + r1)[1..] == r1;
    assert FirstBroken(r5, ra) == if !Holds(InLithuania, ra) then Some(InLithuania) else None;
    assert FirstBroken(r4, ra) == if !Holds(Category, ra) then Some(Category) else FirstBroken(r5, ra);
    assert FirstBroken(r3, ra) == if !Holds(OpenHours, ra) then Some(OpenHours) else FirstBroken(r4, ra);
    assert FirstBroken(r2, ra) == if !Holds(City, ra) then Some(City) else FirstBroken(r3, ra);
    assert FirstBroken(r1, ra) == if !Holds(NameLength, ra) then Some(NameLength) else FirstBroken(r2, ra);
  }

  // ---------------------------------------------------------------------
  // Properties of the rule chain

  /** A record is accepted, unchanged, exactly when every rule holds; a
      rejection names the first rule broken in source order. */
  lemma ValidationFirstFailure(ra: RawAttraction)
    ensures Validation(Ok(ra)) == Ok(ra) <==> forall k :: 0 <= k < |RuleOrder| ==> Holds(RuleOrder[k], ra)
    ensures Validation(Ok(ra)).Err? ==> exists k :: (0 <= k < |RuleOrder| && !Holds(RuleOrder[k], ra)
      && Validation(Ok(ra)).msg == Message(RuleOrder[k])
      && forall j :: 0 <= j < k ==> Holds(RuleOrder[j], ra))
  {
  }

  /** A decoding error is passed through unchanged. */
  lemma DecodeErrorPassesThrough(msg: string)
    ensures Validation(Err(msg)) == Err(msg)
  {
  }

  /** The open hours are not range-checked: "99:99-99:99" passes. */
  lemma HoursNotRangeChecked(s: string)
    requires |s| == 11 && s[5] == '-' && s[2] == ':' && s[8] == ':'
    requires forall i :: 0 <= i < 11 && i != 2 && i != 5 && i != 8 ==> s[i] == '9'
    ensures HoursMatch(s)
  {
    assert HoursAt(s, 0);
  }

  /** A field holding the pattern anywhere passes, whatever surrounds it. */
  lemma HoursUnanchored(prefix: string, h: string, suffix: string)
    requires |h| == 11 && HoursAt(h, 0)
    ensures HoursMatch(prefix + h + suffix)
  {
    var s := prefix + h + suffix;
    assert s[|prefix|..|prefix| + 11] == h;
    assert HoursAt(s, |prefix|);
  }

  /** A city passes the letter test with a single '_' (or any other of
      [ \ ] ^ _ and backquote) among digits: the class [A-z] spans them and
      the match is unanchored. */
  lemma CityAcceptsNonLetters(city: string)
    requires |city| == 4 && city[0] == '_'
    requires forall i :: 1 <= i < 4 ==> Digit(city[i])
    ensures ByteLen(city) > 3 && CityMatches(city)
  {
    assert CityCharacter(city[0]);
    ByteLenAscii(city);
  }

  /** Accepted categories are exactly the three viable ones. */
  lemma CategoryExact(ra: RawAttraction)
    ensures Holds(Category, ra) <==> ra.category == "nature" || ra.category == "heritage" || ra.category == "museums"
  {
  }

  /** A name of four stripped letters passes the length rule (eight bytes)
      yet gives an empty id. */
  lemma ValidNameCanGiveEmptyId(c: char)
    requires LithuanianLetter(c)
    ensures ByteLen([c, c, c, c]) == 8 && ToID([c, c, c, c]) == ""
  {
    var n := [c, c, c, c];
    assert n[1..] == [c, c, c] && n[1..][1..] == [c, c] && n[1..][1..][1..] == [c];
    assert ByteLen([c]) == 2;
    assert ByteLen([c, c]) == 4;
    assert ByteLen([c, c, c]) == 6;
    AllStrippedGiveEmptyId(n);
  }

  // ---------------------------------------------------------------------
  // wrap

  /** RawAttraction.wrap: the id comes from the untrimmed name, the stored
      name is trimmed, the description is serialised after trimming, and the
      image fields become nullable strings. json.Marshal is a parameter. */
  function Wrap(ra: RawAttraction, marshalDescription: Description -> string,
                marshalLocation: Location -> string): (a: Attraction)
    ensures a.id == ToID(ra.description.name) && a.name == TrimSpace(ra.description.name)
    ensures a.category == ra.category && a.location == marshalLocation(ra.location)
    ensures a.description == marshalDescription(ra.description.(name := a.name))
    ensures a.url.valid <==> ra.image.url != ""
    ensures a.copyright.valid <==> ra.image.copyright != ""
    ensures a.url.valid ==> a.url.str == ra.image.url
    ensures a.copyright.valid ==> a.copyright.str == ra.image.copyright
    ensures !a.url.valid ==> a.url == NullString("", false)
    ensures !a.copyright.valid ==> a.copyright == NullString("", false)
  {
    var name := TrimSpace(ra.description.name);
    Attraction(ToID(ra.description.name), ra.category,
               marshalDescription(ra.description.(name := name)), marshalLocation(ra.location),
               name, CreateNullString(ra.image.url), CreateNullString(ra.image.copyright))
  }

  /** The only white space in `s` is the plain space ' '. */
  predicate OnlyPlainSpaces(s: string)
  {
    forall i :: 0 <= i < |s| && IsSpace(s[i]) ==> s[i] == ' '
  }

  /** Surrounding spaces do not matter to the id: when the only white
      space in a name is ' ', toID gives the same id for the name and for
      the name wrap stores (trimmed). */
  lemma IdIgnoresSurroundingSpaces(n: string)
    requires OnlyPlainSpaces(n)
    ensures ToID(n) == ToID(TrimSpace(n))
  {
    IdIgnoresLeadingSpaces(n);
    var l := TrimLeft(n);
    assert OnlyPlainSpaces(l) by {
      assert forall i :: 0 <= i < |l| ==> l[i] == n[|n| - |l| + i];
    }
    IdIgnoresTrailingSpaces(l);
  }

  lemma {:induction false} IdIgnoresLeadingSpaces(s: string)
    requires OnlyPlainSpaces(s)
    ensures ToID(TrimLeft(s)) == ToID(s)
  {
    if |s| > 0 && IsSpace(s[0]) {
      assert s[0] == ' ';
      assert s == [' '] + s[1..];
      ToIDAppend([' '], s[1..]);
      ToIDOneCharacter(' ');
      assert OnlyPlainSpaces(s[1..]) by {
        assert forall i :: 0 <= i < |s[1..]| ==> s[1..][i] == s[i + 1];
      }
      IdIgnoresLeadingSpaces(s[1..]);
    }
  }

  lemma {:induction false} IdIgnoresTrailingSpaces(s: string)
    requires OnlyPlainSpaces(s)
    ensures ToID(TrimRight(s)) == ToID(s)
  {
    if |s| > 0 && IsSpace(s[|s| - 1]) {
      var init := s[..|s| - 1];
      assert s[|s| - 1] == ' ';
      assert s == init + [' '];
      ToIDAppend(init, [' ']);
      ToIDOneCharacter(' ');
      assert OnlyPlainSpaces(init) by {
        assert forall i :: 0 <= i < |init| ==> init[i] == s[i];
      }
      IdIgnoresTrailingSpaces(init);
    }
  }

  /** A name made only of stripped characters gives the empty id. */
  lemma {:induction false} AllStrippedGiveEmptyId(s: string)
    requires forall i :: 0 <= i < |s| ==> Stripped(s[i])
    ensures ToID(s) == ""
  {
    if |s| > 0 {
      AllStrippedGiveEmptyId(s[1..]);
    }
  }

  /** A character that only lowercases from itself is absent from the id
      when it is absent from the name. */
  lemma ToIDAvoids(s: string, x: char)
    requires x !in s && x < 'A'
    ensures x !in ToID(s)
  {
    var k := StripLithuanian(s);
    forall j | 0 <= j < |k|
      ensures ToID(s)[j] != x
    {
      LowerRange(k[j]);
      assert k[j] in s;
    }
  }

  /** Other white space is trimmed from the name but kept in the id: a name
      starting with, say, a tab gets an id starting with that tab, while
      toID of the trimmed name has none. */
  lemma IdKeepsLeadingWhiteSpace(w: char, rest: string)
    requires IsSpace(w) && w != ' ' && w < 'A' && w !in rest
    ensures ToID([w] + rest) == [w] + ToID(rest)
    ensures w !in ToID(TrimSpace([w] + rest))
  {
    var n := [w] + rest;
    assert ToID(n) == [w] + ToID(rest) by {
      ToIDAppend([w], rest);
      ToIDOneCharacter(w);
      LowerRange(w);
    }
    assert TrimSpace(n) == TrimSpace(rest) by {
      assert n[1..] == rest;
    }
    var lo, hi := TrimSpaceSlice(rest);
    ToIDAvoids(rest[lo..hi], w);
  }
}
