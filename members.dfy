/** The Member record of the roster (src/App.jsx, class Member): raw field
    values are classified into closed enumerations when a member is built,
    and ages, birthdays and the form of address are derived from the date of
    birth and the current day. */
module Members {
  import opened Text
  import opened Dates

  /** A raw field value: a spreadsheet cell or a form field. Empty is the
      JavaScript `undefined` of a missing cell. */
  datatype Cell = Empty | Str(text: string) | Number(value: int)

  /** JavaScript truthiness: `undefined`, the empty string and 0 are false. */
  predicate Falsy(c: Cell) {
    c.Empty? || c == Str("") || c == Number(0)
  }

  /** `val.toString()` */
  function CellText(c: Cell): string {
    match c
    case Empty => ""
    case Str(s) => s
    case Number(n) => NumberText(n)
  }

  /** The text the classifiers look at: `val.toString().toLowerCase().trim()`. */
  function Key(c: Cell): string {
    Trim(Lower(CellText(c)))
  }

  /** The outcome of an operation that may throw a JavaScript TypeError. */
  datatype Outcome<T> = Done(value: T) | TypeError

  datatype Gender = Male | Female
  datatype Position = Staff | Manager | Leader
  datatype Marital = Single | Married

  /** The codes the application stores and its entry form submits. */
  function GenderCode(g: Gender): string {
    match g
    case Male => "male"
    case Female => "female"
  }

  function PositionCode(p: Position): string {
    match p
    case Staff => "staff"
    case Manager => "manager"
    case Leader => "leader"
  }

  function MaritalCode(s: Marital): string {
    match s
    case Single => "single"
    case Married => "married"
  }

  // ---------------------------------------------------------------------------
  // Classification of free text

  /** The words each classifier looks for, in the order the source tries them. */
  const FemaleWords := ["nữ", "female"]
  const LeaderWords := ["chủ tịch", "giám đốc", "lãnh đạo", "phó"]
  const ManagerWords := ["trưởng", "phó phòng", "quản lý"]
  const MarriedWords := ["kết hôn", "gia đình", "có vợ", "có chồng"]

  /** normalizeGender's test on the key: "nữ" or "female" inside it, or the key "f". */
  predicate FemaleKey(k: string) {
    ContainsAny(k, FemaleWords) || k == "f"
  }

  /** normalizePosition's first test: a leader's title inside the key. */
  predicate LeaderKey(k: string) {
    ContainsAny(k, LeaderWords)
  }

  /** normalizePosition's second test: a manager's title inside the key. */
  predicate ManagerKey(k: string) {
    ContainsAny(k, ManagerWords)
  }

  /** normalizeMarital's test: a word for married inside the key. */
  predicate MarriedKey(k: string) {
    ContainsAny(k, MarriedWords)
  }

  function GenderOf(falsy: bool, k: string): Gender {
    if falsy then Male else if FemaleKey(k) then Female else Male
  }

  function PositionAsWritten(falsy: bool, k: string): Position {
    if falsy then Staff
    else if LeaderKey(k) then Leader
    else if ManagerKey(k) then Manager
    else Staff
  }

  function MaritalAsWritten(falsy: bool, k: string): Marital {
    if falsy then Single else if MarriedKey(k) then Married else Single
  }

  /** The corrected position rule: the application's own codes first. */
  function PositionOf(falsy: bool, k: string): Position {
    if k == "manager" then Manager
    else if k == "leader" then Leader
    else PositionAsWritten(falsy, k)
  }

  /** The corrected marital rule: the application's own code first. */
  function MaritalOf(falsy: bool, k: string): Marital {
    if k == "married" then Married else MaritalAsWritten(falsy, k)
  }

  /** normalizeGender: male for falsy input, female exactly when the key holds
      "nữ" or "female" or is "f" (GenderRule). */
  function NormalizeGender(c: Cell): (g: Gender)
    ensures Falsy(c) ==> g == Male
  {
    GenderOf(Falsy(c), Key(c))
  }

  /** normalizePosition as written: leader tokens are tried before manager
      tokens (LeaderRule, ManagerExactly). */
  function ClassifyPosition(c: Cell): (p: Position)
    ensures Falsy(c) ==> p == Staff
  {
    PositionAsWritten(Falsy(c), Key(c))
  }

  /** normalizeMarital as written (MaritalRule). */
  function ClassifyMarital(c: Cell): (s: Marital)
    ensures Falsy(c) ==> s == Single
  {
    MaritalAsWritten(Falsy(c), Key(c))
  }

  /** normalizePosition as evidently intended: the codes "manager" and
      "leader", which the entry form submits, are recognised before the
      free-text rules. */
  function NormalizePosition(c: Cell): (p: Position)
    ensures Falsy(c) ==> p == Staff
    ensures Key(c) == PositionCode(p) || p == ClassifyPosition(c)
  {
    FalsyKeyIsNoCode(c);
    PositionOf(Falsy(c), Key(c))
  }

  /** normalizeMarital as evidently intended: the code "married" is recognised. */
  function NormalizeMarital(c: Cell): (s: Marital)
    ensures Falsy(c) ==> s == Single
    ensures Key(c) == MaritalCode(s) || s == ClassifyMarital(c)
  {
    FalsyKeyIsNoCode(c);
    MaritalOf(Falsy(c), Key(c))
  }

  /** A falsy cell's key is "" or "0", none of the codes. */
  lemma FalsyKeyIsNoCode(c: Cell)
    ensures Falsy(c) ==> Key(c) != "manager" && Key(c) != "leader" && Key(c) != "married"
  {
    if Falsy(c) {
      if c.Number? {
        NumberKey(0);
        assert |NumberText(0)| == 1;
      } else {
        assert CellText(c) == "";
      }
      assert |Key(c)| <= 1;
    }
  }

  // ---------------------------------------------------------------------------
  // The record

  /** A member with every field classified: the entity of the roster. */
  datatype Member = Member(
    id: int, name: string, dob: Dob, gender: Gender,
    position: Position, marital: Marital, unit: string)
  {
    /** getAge: completed years of life on `today`; 0 for an invalid date of
        birth. The `age`-th anniversary is on or before today and the next
        one is after it. */
    function Age(today: Day): (age: int)
      ensures dob.Invalid? ==> age == 0
      ensures dob.Valid? ==>
        !Before(today, Anniversary(dob.date, age)) && Before(today, Anniversary(dob.date, age + 1))
    {
      match dob
      case Invalid => 0
      case Valid(d) =>
        today.year - d.year
        - (if today.month < d.month || (today.month == d.month && today.day < d.day) then 1 else 0)
    }

    /** getAge with its local decrement, as the source computes it. */
    method GetAge(today: Day) returns (age: int)
      ensures age == Age(today)
    {
      if dob.Invalid? {
        return 0;
      }
      var d := dob.date;
      age := today.year - d.year;
      var m := today.month - d.month;
      if m < 0 || (m == 0 && today.day < d.day) {
        age := age - 1;
      }
    }

    /** isBirthdayToday: month and day of month agree, whatever the year. */
    predicate IsBirthdayToday(today: Day) {
      dob.Valid? && dob.date.month == today.month && dob.date.day == today.day
    }

    /** getPronoun with its default reference age of 40. */
    function Pronoun(today: Day): (a: Address)
      ensures dob.Invalid? ==> a == Em
      ensures a == Em <==> Age(today) < ReferenceAge
    {
      AddressFor(gender, Age(today))
    }

    /** getPositionLabel */
    function PositionLabel(): string {
      match position
      case Staff => "Đoàn viên"
      case Manager => "Cán bộ quản lý"
      case Leader => "Lãnh đạo"
    }
  }

  /** The same month and day `k` years after `d`, as a triple for comparison
      (the 29th of February has no anniversary in a common year). */
  function Anniversary(d: Day, k: int): Date {
    Date(d.year + k, d.month, d.day)
  }

  /** The forms of address a greeting uses. */
  datatype Address = Anh | Chi | Em | Ban {
    function Text(): string {
      match this
      case Anh => "Anh"
      case Chi => "Chị"
      case Em => "Em"
      case Ban => "Bạn"
    }
  }

  const ReferenceAge := 40

  /** Elder form (by gender) above the reference age, junior form below it,
      peer form at it. */
  function AddressFor(g: Gender, age: int): (a: Address)
    ensures a == Anh <==> age > ReferenceAge && g == Male
    ensures a == Chi <==> age > ReferenceAge && g == Female
    ensures a == Em <==> age < ReferenceAge
    ensures a == Ban <==> age == ReferenceAge
  {
    if age > ReferenceAge then (match g case Male => Anh case Female => Chi)
    else if age < ReferenceAge then Em
    else Ban
  }

  /** A default text: not empty, and neither starting nor ending in white space. */
  type Fallback = s: string | s != [] && !IsSpace(s[0]) && !IsSpace(s[|s| - 1]) witness "-"

  const NoName: Fallback := "Không tên"
  const DefaultUnit: Fallback := "Công ty"

  /** `val ? val.trim() : fallback` for a name or unit that is not a number:
      falsy input takes the fallback, anything else is trimmed, so text of
      white space alone becomes the empty string. */
  function TrimOr(c: Cell, fallback: Fallback): (s: string)
    requires !c.Number? || Falsy(c)
    ensures Falsy(c) ==> s == fallback
    ensures !Falsy(c) ==> s == Trim(c.text)
    ensures s == "" <==> c.Str? && c.text != "" && AllSpace(c.text)
    ensures s == [] || (!IsSpace(s[0]) && !IsSpace(s[|s| - 1]))
  {
    if Falsy(c) then fallback else Trim(c.text)
  }

  /** The Member constructor, with the corrected position and marital rules.
      A name or unit that is a non-zero number makes `.trim()` throw;
      everything else yields a member. */
  function NewMember(
    id: int, name: Cell, dob: Dob, gender: Cell,
    position: Cell, marital: Cell, unit: Cell): (r: Outcome<Member>)
    ensures r.TypeError? <==> (name.Number? && !Falsy(name)) || (unit.Number? && !Falsy(unit))
    ensures r.Done? ==> r.value.id == id && r.value.dob == dob
    ensures r.Done? ==> (Falsy(name) ==> r.value.name == NoName) && (!Falsy(name) ==> r.value.name == Trim(name.text))
    ensures r.Done? ==> (Falsy(unit) ==> r.value.unit == DefaultUnit) && (!Falsy(unit) ==> r.value.unit == Trim(unit.text))
    ensures r.Done? ==> (r.value.gender == Female <==> !Falsy(gender) && FemaleKey(Key(gender)))
    ensures r.Done? ==> (r.value.position == Leader <==>
      Key(position) == "leader" || (Key(position) != "manager" && !Falsy(position) && LeaderKey(Key(position))))
    ensures r.Done? ==> (r.value.position == Manager <==>
      Key(position) == "manager" ||
      (Key(position) != "leader" && !Falsy(position) && !LeaderKey(Key(position)) && ManagerKey(Key(position))))
    ensures r.Done? ==> (r.value.marital == Married <==>
      Key(marital) == "married" || (!Falsy(marital) && MarriedKey(Key(marital))))
  {
    if (name.Number? && !Falsy(name)) || (unit.Number? && !Falsy(unit)) then
      TypeError
    else
      Done(Member(id, TrimOr(name, NoName), dob, NormalizeGender(gender),
                  NormalizePosition(position), NormalizeMarital(marital), TrimOr(unit, DefaultUnit)))
  }

  /** The Member constructor as written, with normalizePosition and
      normalizeMarital as the code has them. */
  function NewMemberAsWritten(
    id: int, name: Cell, dob: Dob, gender: Cell,
    position: Cell, marital: Cell, unit: Cell): (r: Outcome<Member>)
    ensures r.TypeError? <==> (name.Number? && !Falsy(name)) || (unit.Number? && !Falsy(unit))
    ensures r.Done? ==> (r.value.position == Leader <==> !Falsy(position) && LeaderKey(Key(position)))
    ensures r.Done? ==> (r.value.position == Manager <==>
      !Falsy(position) && !LeaderKey(Key(position)) && ManagerKey(Key(position)))
    ensures r.Done? ==> (r.value.marital == Married <==> !Falsy(marital) && MarriedKey(Key(marital)))
  {
    if (name.Number? && !Falsy(name)) || (unit.Number? && !Falsy(unit)) then
      TypeError
    else
      Done(Member(id, TrimOr(name, NoName), dob, NormalizeGender(gender),
                  ClassifyPosition(position), ClassifyMarital(marital), TrimOr(unit, DefaultUnit)))
  }

  /** The two constructors throw alike and build the same member, except for
      a position or marital cell holding one of the application's codes. */
  lemma ConstructorsAgree(
    id: int, name: Cell, dob: Dob, gender: Cell,
    position: Cell, marital: Cell, unit: Cell)
    ensures var r, w := NewMember(id, name, dob, gender, position, marital, unit),
                        NewMemberAsWritten(id, name, dob, gender, position, marital, unit);
      r.Done? == w.Done? &&
      (r.Done? ==> w.value == r.value.(position := w.value.position, marital := w.value.marital)) &&
      (r.Done? && Key(position) != "manager" && Key(position) != "leader" ==> w.value.position == r.value.position) &&
      (r.Done? && Key(marital) != "married" ==> w.value.marital == r.value.marital)
  {
    CorrectionOnlyForCodes(position);
    CorrectionOnlyForCodes(marital);
  }

  // ---------------------------------------------------------------------------
  // What classification promises

  /** White space around the raw text does not change the classified text. */
  lemma KeyIgnoresPadding(a: string, s: string, b: string)
    requires AllSpace(a) && AllSpace(b)
    ensures Key(Str(a + s + b)) == Key(Str(s))
  {
    LowerAppend(a + s, b);
    LowerAppend(a, s);
    LowerAllSpace(a);
    LowerAllSpace(b);
    TrimPadded(Lower(a), Lower(s), Lower(b));
  }

  /** Capitals in the raw text do not change the classified text. */
  lemma KeyIgnoresCase(s: string)
    ensures Key(Str(Lower(s))) == Key(Str(s))
  {
    LowerIdempotent(s);
  }

  /** Text that trims to nothing classifies as the defaults. */
  lemma BlankKeyDefaults(c: Cell)
    requires Key(c) == ""
    ensures NormalizeGender(c) == Male
    ensures NormalizePosition(c) == Staff && ClassifyPosition(c) == Staff
    ensures NormalizeMarital(c) == Single && ClassifyMarital(c) == Single
  {
    var f := Falsy(c);
    EmptyKeyDefaults(f);
    assert NormalizeGender(c) == GenderOf(f, "");
    assert NormalizePosition(c) == PositionOf(f, "") && ClassifyPosition(c) == PositionAsWritten(f, "");
    assert NormalizeMarital(c) == MaritalOf(f, "") && ClassifyMarital(c) == MaritalAsWritten(f, "");
  }

  /** The classifiers see a cell only through its key and, unless the key is
      blank, its truthiness. */
  lemma SameKeySameClasses(c: Cell, c': Cell)
    requires Key(c) == Key(c') && (Falsy(c) == Falsy(c') || Key(c) == "")
    ensures NormalizeGender(c) == NormalizeGender(c')
    ensures NormalizePosition(c) == NormalizePosition(c')
    ensures NormalizeMarital(c) == NormalizeMarital(c')
    ensures ClassifyPosition(c) == ClassifyPosition(c')
    ensures ClassifyMarital(c) == ClassifyMarital(c')
  {
    var f, k := Falsy(c), Key(c);
    if k == "" {
      BlankKeyDefaults(c);
      BlankKeyDefaults(c');
    } else {
      assert NormalizeGender(c) == GenderOf(f, k) == NormalizeGender(c');
      assert NormalizePosition(c) == PositionOf(f, k) == NormalizePosition(c');
      assert NormalizeMarital(c) == MaritalOf(f, k) == NormalizeMarital(c');
      assert ClassifyPosition(c) == PositionAsWritten(f, k) == ClassifyPosition(c');
      assert ClassifyMarital(c) == MaritalAsWritten(f, k) == ClassifyMarital(c');
    }
  }

  /** White space alone classifies as the defaults, like the empty string. */
  lemma BlankTextDefaults(s: string)
    requires AllSpace(s)
    ensures NormalizeGender(Str(s)) == Male
    ensures NormalizePosition(Str(s)) == Staff
    ensures NormalizeMarital(Str(s)) == Single
    ensures ClassifyPosition(Str(s)) == Staff && ClassifyMarital(Str(s)) == Single
  {
    LowerAllSpace(s);
    BlankKeyDefaults(Str(s));
  }

  /** Gender, position and marital status ignore surrounding white space. */
  lemma ClassifiersIgnorePadding(a: string, s: string, b: string)
    requires AllSpace(a) && AllSpace(b)
    ensures NormalizeGender(Str(a + s + b)) == NormalizeGender(Str(s))
    ensures NormalizePosition(Str(a + s + b)) == NormalizePosition(Str(s))
    ensures NormalizeMarital(Str(a + s + b)) == NormalizeMarital(Str(s))
    ensures ClassifyPosition(Str(a + s + b)) == ClassifyPosition(Str(s))
    ensures ClassifyMarital(Str(a + s + b)) == ClassifyMarital(Str(s))
  {
    KeyIgnoresPadding(a, s, b);
    PaddedTruthiness(a, s, b);
    SameKeySameClasses(Str(a + s + b), Str(s));
  }

  /** Padded text is truthy when the text is, and the empty text has the blank key. */
  lemma PaddedTruthiness(a: string, s: string, b: string)
    ensures s != "" ==> !Falsy(Str(a + s + b)) && !Falsy(Str(s))
    ensures s == "" ==> Key(Str(s)) == ""
  {
    if s != "" {
      assert |a + s + b| > 0;
    }
  }

  /** The empty key classifies as the defaults, whatever the truthiness. */
  lemma EmptyKeyDefaults(falsy: bool)
    ensures GenderOf(falsy, "") == Male
    ensures PositionOf(falsy, "") == Staff
    ensures MaritalOf(falsy, "") == Single
    ensures PositionAsWritten(falsy, "") == Staff && MaritalAsWritten(falsy, "") == Single
  {
  }

  /** Lower-casing keeps the key and the truthiness of a text. */
  lemma LowerKeepsTruthiness(s: string)
    ensures Key(Str(Lower(s))) == Key(Str(s))
    ensures Falsy(Str(Lower(s))) == Falsy(Str(s))
  {
    KeyIgnoresCase(s);
    assert |Lower(s)| == |s|;
  }

  /** Gender, position and marital status ignore letter case. */
  lemma ClassifiersIgnoreCase(s: string)
    ensures NormalizeGender(Str(Lower(s))) == NormalizeGender(Str(s))
    ensures NormalizePosition(Str(Lower(s))) == NormalizePosition(Str(s))
    ensures NormalizeMarital(Str(Lower(s))) == NormalizeMarital(Str(s))
    ensures ClassifyPosition(Str(Lower(s))) == ClassifyPosition(Str(s))
    ensures ClassifyMarital(Str(Lower(s))) == ClassifyMarital(Str(s))
  {
    LowerKeepsTruthiness(s);
    SameKeySameClasses(Str(Lower(s)), Str(s));
  }

  /** The letters with diacritics that tell each Vietnamese token apart from plain text. */
  const TokenLetters: set<char> := {'ữ', 'ủ', 'á', 'ã', 'ó', 'ư', 'ả', 'ế', 'đ'}

  /** Text written without those letters holds no Vietnamese token. */
  lemma NoVietnameseToken(k: string, alphabet: set<char>)
    requires forall i :: 0 <= i < |k| ==> k[i] in alphabet
    requires alphabet !! TokenLetters
    ensures !Contains(k, "nữ") && !LeaderKey(k) && !ManagerKey(k) && !MarriedKey(k)
  {
    NotContainsForeign(k, "nữ", 1, alphabet);
    NotContainsForeign(k, "chủ tịch", 2, alphabet);
    NotContainsForeign(k, "giám đốc", 2, alphabet);
    NotContainsForeign(k, "lãnh đạo", 1, alphabet);
    NotContainsForeign(k, "phó", 2, alphabet);
    NotContainsForeign(k, "trưởng", 2, alphabet);
    NotContainsForeign(k, "phó phòng", 2, alphabet);
    NotContainsForeign(k, "quản lý", 2, alphabet);
    NotContainsForeign(k, "kết hôn", 1, alphabet);
    NotContainsForeign(k, "gia đình", 4, alphabet);
    NotContainsForeign(k, "có vợ", 1, alphabet);
    NotContainsForeign(k, "có chồng", 1, alphabet);
    ContainsNone(k, LeaderWords);
    ContainsNone(k, ManagerWords);
    ContainsNone(k, MarriedWords);
  }

  lemma NumberKey(n: int)
    ensures Key(Number(n)) == NumberText(n)
  {
    var t := NumberText(n);
    LowerNoUpper(t);
    TrimUnpadded(t);
  }

  /** Decimal digits hold no token and are none of the codes. */
  lemma DigitsHoldNoToken(t: string)
    requires t != [] && forall i :: 0 <= i < |t| ==> IsDecimal(t[i])
    ensures !FemaleKey(t) && !LeaderKey(t) && !ManagerKey(t) && !MarriedKey(t)
    ensures t != "manager" && t != "leader" && t != "married"
  {
    NoVietnameseToken(t, DecimalChars);
    NotContainsForeign(t, "female", 0, DecimalChars);
    ContainsNone(t, FemaleWords);
    assert IsDecimal(t[0]);
  }

  /** A numeric cell classifies as the defaults: its digits hold no token. */
  lemma NumbersClassifyAsDefaults(n: int)
    ensures NormalizeGender(Number(n)) == Male
    ensures NormalizePosition(Number(n)) == Staff
    ensures NormalizeMarital(Number(n)) == Single
    ensures ClassifyPosition(Number(n)) == Staff && ClassifyMarital(Number(n)) == Single
  {
    NumberKey(n);
    DigitsHoldNoToken(NumberText(n));
  }

  /** Text holding "phó phòng" is a leader's: "phó" is part of it and the
      leader tokens are tried first. */
  lemma PositionPrecedence(c: Cell)
    requires !Falsy(c) && Contains(Key(c), "phó phòng")
    ensures ClassifyPosition(c) == Leader && NormalizePosition(c) == Leader
  {
    DeputyHeadIsLeader(Key(c));
  }

  lemma DeputyHeadIsLeader(k: string)
    requires Contains(k, "phó phòng")
    ensures LeaderKey(k) && k != "manager" && k != "leader"
  {
    var j :| OccursAt(k, "phó phòng", j);
    assert |k| >= 9;
    ContainsAt("phó phòng", "phó", 0);
    ContainsTransitive(k, "phó phòng", "phó");
    ContainsAnyAt(k, LeaderWords, 3);
  }

  /** The manager branch is reached through "trưởng" or "quản lý" alone: its
      "phó phòng" test can never decide anything. */
  lemma ManagerExactly(c: Cell)
    ensures ClassifyPosition(c) == Manager <==>
      !Falsy(c) && !LeaderKey(Key(c)) &&
      (Contains(Key(c), "trưởng") || Contains(Key(c), "quản lý"))
  {
    var k := Key(c);
    ManagerWordsSpelled(k);
    if Contains(k, "phó phòng") {
      DeputyHeadIsLeader(k);
    }
  }

  /** ManagerKey tests its three words. */
  lemma ManagerWordsSpelled(k: string)
    ensures ManagerKey(k) <==> Contains(k, "trưởng") || Contains(k, "phó phòng") || Contains(k, "quản lý")
  {
    var w := ManagerWords;
    assert ContainsAny(k, w) <==> Contains(k, w[0]) || ContainsAny(k, w[1..]);
    assert ContainsAny(k, w[1..]) <==> Contains(k, w[1]) || ContainsAny(k, w[2..]);
    assert ContainsAny(k, w[2..]) <==> Contains(k, w[2]) || ContainsAny(k, w[3..]);
    assert w[1..][1..] == w[2..] && w[2..][1..] == w[3..] == [];
  }

  /** FemaleKey tests its two words and the key "f". */
  lemma FemaleWordsSpelled(k: string)
    ensures FemaleKey(k) <==> Contains(k, "nữ") || Contains(k, "female") || k == "f"
  {
    var w := FemaleWords;
    assert ContainsAny(k, w) <==> Contains(k, w[0]) || ContainsAny(k, w[1..]);
    assert ContainsAny(k, w[1..]) <==> Contains(k, w[1]) || ContainsAny(k, w[2..]);
    assert w[1..][1..] == w[2..] == [];
  }

  /** LeaderKey tests its four words. */
  lemma LeaderWordsSpelled(k: string)
    ensures LeaderKey(k) <==>
      Contains(k, "chủ tịch") || Contains(k, "giám đốc") || Contains(k, "lãnh đạo") || Contains(k, "phó")
  {
    var w := LeaderWords;
    assert ContainsAny(k, w) <==> Contains(k, w[0]) || ContainsAny(k, w[1..]);
    assert ContainsAny(k, w[1..]) <==> Contains(k, w[1]) || ContainsAny(k, w[2..]);
    assert ContainsAny(k, w[2..]) <==> Contains(k, w[2]) || ContainsAny(k, w[3..]);
    assert ContainsAny(k, w[3..]) <==> Contains(k, w[3]) || ContainsAny(k, w[4..]);
    assert w[1..][1..] == w[2..] && w[2..][1..] == w[3..] && w[3..][1..] == w[4..] == [];
  }

  /** MarriedKey tests its four words. */
  lemma MarriedWordsSpelled(k: string)
    ensures MarriedKey(k) <==>
      Contains(k, "kết hôn") || Contains(k, "gia đình") || Contains(k, "có vợ") || Contains(k, "có chồng")
  {
    var w := MarriedWords;
    assert ContainsAny(k, w) <==> Contains(k, w[0]) || ContainsAny(k, w[1..]);
    assert ContainsAny(k, w[1..]) <==> Contains(k, w[1]) || ContainsAny(k, w[2..]);
    assert ContainsAny(k, w[2..]) <==> Contains(k, w[2]) || ContainsAny(k, w[3..]);
    assert ContainsAny(k, w[3..]) <==> Contains(k, w[3]) || ContainsAny(k, w[4..]);
    assert w[1..][1..] == w[2..] && w[2..][1..] == w[3..] && w[3..][1..] == w[4..] == [];
  }

  /** normalizeGender: female exactly for truthy text whose key holds "nữ" or
      "female" or is "f"; male otherwise. */
  lemma GenderRule(c: Cell)
    ensures NormalizeGender(c) == Female <==>
      !Falsy(c) && (Contains(Key(c), "nữ") || Contains(Key(c), "female") || Key(c) == "f")
  {
    var k := Key(c);
    FemaleWordsSpelled(k);
    assert NormalizeGender(c) == GenderOf(Falsy(c), k);
  }

  /** normalizePosition as written: leader exactly for truthy text holding a
      leader's title. */
  lemma LeaderRule(c: Cell)
    ensures ClassifyPosition(c) == Leader <==>
      !Falsy(c) && (Contains(Key(c), "chủ tịch") || Contains(Key(c), "giám đốc") ||
                    Contains(Key(c), "lãnh đạo") || Contains(Key(c), "phó"))
  {
    var k := Key(c);
    LeaderWordsSpelled(k);
    assert ClassifyPosition(c) == PositionAsWritten(Falsy(c), k);
  }

  /** normalizeMarital as written: married exactly for truthy text holding a
      word for married. */
  lemma MaritalRule(c: Cell)
    ensures ClassifyMarital(c) == Married <==>
      !Falsy(c) && (Contains(Key(c), "kết hôn") || Contains(Key(c), "gia đình") ||
                    Contains(Key(c), "có vợ") || Contains(Key(c), "có chồng"))
  {
    var k := Key(c);
    MarriedWordsSpelled(k);
    assert ClassifyMarital(c) == MaritalAsWritten(Falsy(c), k);
  }

  /** The corrected classifiers differ from the ones as written only on the
      application's own codes. */
  lemma CorrectionOnlyForCodes(c: Cell)
    ensures Key(c) != "manager" && Key(c) != "leader" ==> NormalizePosition(c) == ClassifyPosition(c)
    ensures Key(c) != "married" ==> NormalizeMarital(c) == ClassifyMarital(c)
  {
    var f, k := Falsy(c), Key(c);
    assert NormalizePosition(c) == PositionOf(f, k) && ClassifyPosition(c) == PositionAsWritten(f, k);
    assert NormalizeMarital(c) == MaritalOf(f, k) && ClassifyMarital(c) == MaritalAsWritten(f, k);
  }

  /** A non-empty word of ASCII lower-case letters. */
  predicate LatinWord(s: string) {
    s != [] && forall i :: 0 <= i < |s| ==> 'a' <= s[i] <= 'z'
  }

  lemma GenderCodeLatin(g: Gender)
    ensures LatinWord(GenderCode(g))
  {
  }

  lemma PositionCodeLatin(p: Position)
    ensures LatinWord(PositionCode(p))
  {
  }

  lemma MaritalCodeLatin(s: Marital)
    ensures LatinWord(MaritalCode(s))
  {
  }

  /** The codes are ASCII lower-case words, so each is its own key. */
  lemma CodeKey(s: string)
    requires LatinWord(s)
    ensures Key(Str(s)) == s
  {
    LowerNoUpper(s);
    TrimUnpadded(s);
  }

  const Latin: set<char> := set c: char | 'a' <= c <= 'z'

  /** A plain ASCII word holds none of the Vietnamese tokens. */
  lemma LatinWordHoldsNoToken(s: string)
    requires LatinWord(s)
    ensures !Contains(s, "nữ") && !LeaderKey(s) && !ManagerKey(s) && !MarriedKey(s)
  {
    NoVietnameseToken(s, Latin);
  }

  /** As written, the classifiers read every plain ASCII word as staff and single. */
  lemma LatinWordMisread(s: string)
    requires LatinWord(s)
    ensures ClassifyPosition(Str(s)) == Staff && ClassifyMarital(Str(s)) == Single
  {
    CodeKey(s);
    LatinWordHoldsNoToken(s);
  }

  /** As written, the entry form's codes "manager" and "leader" are read as staff. */
  lemma PositionCodeMisread(p: Position)
    requires p != Staff
    ensures ClassifyPosition(Str(PositionCode(p))) == Staff
  {
    PositionCodeLatin(p);
    LatinWordMisread(PositionCode(p));
  }

  /** As written, the entry form's code "married" is read as single. */
  lemma MarriedCodeMisread()
    ensures ClassifyMarital(Str(MaritalCode(Married))) == Single
  {
    MaritalCodeLatin(Married);
    LatinWordMisread(MaritalCode(Married));
  }

  /** Every gender code the application writes reads back as itself. */
  lemma GenderCodeRoundTrip(g: Gender)
    ensures NormalizeGender(Str(GenderCode(g))) == g
  {
    var c := GenderCode(g);
    GenderCodeLatin(g);
    CodeKey(c);
    assert NormalizeGender(Str(c)) == GenderOf(false, c);
    if g == Female {
      FemaleCodeIsFemale(c);
    } else {
      MaleCodeNotFemale(c);
    }
  }

  /** "female" holds "female". */
  lemma FemaleCodeIsFemale(c: string)
    requires c == GenderCode(Female)
    ensures FemaleKey(c)
  {
    ContainsAt(c, "female", 0);
    ContainsAnyAt(c, FemaleWords, 1);
  }

  /** "male" holds neither "nữ" nor "female" and is not "f". */
  lemma MaleCodeNotFemale(c: string)
    requires c == GenderCode(Male)
    ensures !FemaleKey(c)
  {
    assert |c| == 4;
    GenderCodeLatin(Male);
    LatinWordHoldsNoToken(c);
    ContainsNone(c, FemaleWords);
  }

  /** With the corrected classifier every position code reads back as itself. */
  lemma PositionCodeRoundTrip(p: Position)
    ensures NormalizePosition(Str(PositionCode(p))) == p
  {
    var c := PositionCode(p);
    PositionCodeLatin(p);
    CodeKey(c);
    if p == Staff {
      LatinWordHoldsNoToken(c);
    }
  }

  /** With the corrected classifier every marital code reads back as itself. */
  lemma MaritalCodeRoundTrip(s: Marital)
    ensures NormalizeMarital(Str(MaritalCode(s))) == s
  {
    var c := MaritalCode(s);
    MaritalCodeLatin(s);
    CodeKey(c);
    if s == Single {
      LatinWordHoldsNoToken(c);
    }
  }

  // ---------------------------------------------------------------------------
  // What the date facts promise

  /** The age contract pins the age down: it is the only count of years whose
      anniversary is on or before today while the next one is after it. */
  lemma AgeUnique(m: Member, today: Day, a: int)
    requires m.dob.Valid?
    requires !Before(today, Anniversary(m.dob.date, a)) && Before(today, Anniversary(m.dob.date, a + 1))
    ensures a == m.Age(today)
  {
  }

  /** A birthday today is exactly today being the anniversary of the age just reached. */
  lemma BirthdayIsAnniversary(m: Member, today: Day)
    ensures m.IsBirthdayToday(today) <==>
      m.dob.Valid? && today == Anniversary(m.dob.date, m.Age(today))
  {
  }

  /** isBirthdayToday looks at month and day only. */
  lemma BirthdayIgnoresYear(m: Member, today: Day, y: int)
    requires ValidDate(Date(y, today.month, today.day))
    ensures m.IsBirthdayToday(Date(y, today.month, today.day)) == m.IsBirthdayToday(today)
  {
  }

  /** An invalid date of birth counts as age 0, which the greeting addresses as junior. */
  lemma InvalidDobIsJunior(m: Member, today: Day)
    requires m.dob.Invalid?
    ensures m.Pronoun(today) == Em
  {
  }

  /** getPositionLabel gives each position its own label, so its fallback is never used. */
  lemma PositionLabelsDistinct(m: Member, m': Member)
    ensures m.PositionLabel() == m'.PositionLabel() <==> m.position == m'.position
  {
  }
}
