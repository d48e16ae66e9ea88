/** Birthday greetings (src/App.jsx, GreetingFactory.generateWishes): three
    texts for a member, each assembled from fixed phrases, the member's form
    of address, name and unit, and chosen by position, gender and marital
    status. */
module Greetings {
  import opened Text
  import opened Dates
  import opened Members

  /** The tag of a greeting option. */
  datatype Kind = Work | Life | Short {
    function Label(): string {
      match this
      case Work => "Công việc"
      case Life => "Tình cảm"
      case Short => "Ngắn gọn"
    }
  }

  datatype GreetingOption = GreetingOption(kind: Kind, content: string)

  /** `pronoun.toLowerCase()`: the form of address inside a sentence. */
  function Lowered(a: Address): string {
    Lower(a.Text())
  }

  // The fixed phrases of the greetings.
  const Congratulate := "Chúc mừng sinh nhật "
  const Wish := " Chúc "
  const LeaderPraise := " luôn bản lĩnh, vững tay chèo lái "
  const LeaderTail := " ngày càng phát triển vững mạnh."
  const ManagerPraise := " tuổi mới nhiều sức khỏe, hoàn thành xuất sắc nhiệm vụ tại "
  const StaffPraise := " luôn nhiệt huyết, hăng say lao động và gắn bó bền chặt với mái nhà chung "
  const HappyBirthday := "Happy Birthday "
  const Party := "! \U{1F389}"
  const FemaleWish := " mãi trẻ trung, xinh đẹp như hoa mùa xuân."
  const MaleWish := " tuổi mới thành công, phong độ ngời ngời."
  const FamilyWish := " Chúc gia đình nhỏ của "
  const MarriedWish := " luôn ngập tràn tiếng cười và hạnh phúc viên mãn."
  const SingleWish := " sớm tìm được \"mảnh ghép\" hoàn hảo của đời mình nhé! \U{2764}"
  const Cmsn := "CMSN "
  const ShortMiddle := "! \U{1F382} Tuổi mới rực rỡ, tiền về như nước, công việc tại "
  const ShortTail := " luôn thuận buồm xuôi gió nhé!"

  /** The opening of the work greeting, naming the member. */
  function WorkOpening(a: Address, name: string): string {
    Congratulate + a.Text() + " " + name + "."
  }

  /** The second sentence of the work greeting, chosen by position. */
  function WorkClause(a: Address, position: Position, unit: string): string {
    match position
    case Leader => Wish + Lowered(a) + LeaderPraise + unit + LeaderTail
    case Manager => Wish + Lowered(a) + ManagerPraise + unit + "."
    case Staff => Wish + Lowered(a) + StaffPraise + unit + "."
  }

  function WorkWish(a: Address, name: string, position: Position, unit: string): string {
    WorkOpening(a, name) + WorkClause(a, position, unit)
  }

  function LifeOpening(name: string): string {
    HappyBirthday + name + Party
  }

  /** The wish chosen by gender. */
  function GenderClause(a: Address, g: Gender): string {
    match g
    case Female => Wish + Lowered(a) + FemaleWish
    case Male => Wish + Lowered(a) + MaleWish
  }

  /** The wish chosen by marital status. */
  function MaritalClause(a: Address, s: Marital): string {
    match s
    case Married => FamilyWish + Lowered(a) + MarriedWish
    case Single => Wish + Lowered(a) + SingleWish
  }

  function LifeWish(a: Address, name: string, g: Gender, s: Marital): string {
    LifeOpening(name) + GenderClause(a, g) + MaritalClause(a, s)
  }

  function ShortWish(a: Address, name: string, unit: string): string {
    Cmsn + a.Text() + " " + name + ShortMiddle + unit + ShortTail
  }

  /** The three greetings for `m` on `today`, in the order they are offered. */
  function Wishes(m: Member, today: Day): seq<GreetingOption> {
    var a := m.Pronoun(today);
    [GreetingOption(Work, WorkWish(a, m.name, m.position, m.unit)),
     GreetingOption(Life, LifeWish(a, m.name, m.gender, m.marital)),
     GreetingOption(Short, ShortWish(a, m.name, m.unit))]
  }

  /** generateWishes, building each text by appending to it and the list by
      pushing onto it. */
  method GenerateWishes(m: Member, today: Day) returns (options: seq<GreetingOption>)
    ensures options == Wishes(m, today)
    ensures |options| == 3
    ensures options[0].kind.Label() == "Công việc"
    ensures options[1].kind.Label() == "Tình cảm"
    ensures options[2].kind.Label() == "Ngắn gọn"
  {
    var pronoun := m.Pronoun(today);
    var lower := Lower(pronoun.Text());
    assert lower == Lowered(pronoun);
    options := [];

    var workWish := Congratulate + pronoun.Text() + " " + m.name + ".";
    assert workWish == WorkOpening(pronoun, m.name);
    if m.position == Leader {
      workWish := workWish + (Wish + lower + LeaderPraise + m.unit + LeaderTail);
    } else if m.position == Manager {
      workWish := workWish + (Wish + lower + ManagerPraise + m.unit + ".");
    } else {
      workWish := workWish + (Wish + lower + StaffPraise + m.unit + ".");
    }
    assert workWish == WorkWish(pronoun, m.name, m.position, m.unit);
    options := options + [GreetingOption(Work, workWish)];

    var lifeWish := HappyBirthday + m.name + Party;
    assert lifeWish == LifeOpening(m.name);
    if m.gender == Female {
      lifeWish := lifeWish + (Wish + lower + FemaleWish);
    } else {
      lifeWish := lifeWish + (Wish + lower + MaleWish);
    }
    if m.marital == Married {
      lifeWish := lifeWish + (FamilyWish + lower + MarriedWish);
    } else {
      lifeWish := lifeWish + (Wish + lower + SingleWish);
    }
    assert lifeWish == LifeWish(pronoun, m.name, m.gender, m.marital);
    options := options + [GreetingOption(Life, lifeWish)];

    var shortWish := Cmsn + pronoun.Text() + " " + m.name + ShortMiddle + m.unit + ShortTail;
    assert shortWish == ShortWish(pronoun, m.name, m.unit);
    options := options + [GreetingOption(Short, shortWish)];
  }

  // ---------------------------------------------------------------------------
  // What the greetings promise

  /** The sentence forms of the four addresses. */
  lemma LoweredAddresses()
    ensures Lowered(Anh) == "anh" && Lowered(Chi) == "chị"
    ensures Lowered(Em) == "em" && Lowered(Ban) == "bạn"
  {
  }

  /** Every greeting names the member. */
  lemma WishesNameMember(m: Member, today: Day)
    ensures forall k :: 0 <= k < |Wishes(m, today)| ==> Contains(Wishes(m, today)[k].content, m.name)
  {
    var a := m.Pronoun(today);
    WorkWishNames(a, m.name, m.position, m.unit);
    LifeWishNames(a, m.name, m.gender, m.marital);
    ShortWishNames(a, m.name, m.unit);
  }

  lemma WorkWishNames(a: Address, name: string, p: Position, unit: string)
    ensures Contains(WorkWish(a, name, p, unit), name)
  {
    ContainsPart(Congratulate + a.Text() + " ", name, ".");
    ContainsExtended("", WorkOpening(a, name), WorkClause(a, p, unit), name);
  }

  lemma LifeWishNames(a: Address, name: string, g: Gender, s: Marital)
    ensures Contains(LifeWish(a, name, g, s), name)
  {
    ContainsPart(HappyBirthday, name, Party);
    ContainsExtended("", LifeOpening(name), GenderClause(a, g), name);
    ContainsExtended("", LifeOpening(name) + GenderClause(a, g), MaritalClause(a, s), name);
  }

  lemma ShortWishNames(a: Address, name: string, unit: string)
    ensures Contains(ShortWish(a, name, unit), name)
  {
    var c := Cmsn + a.Text() + " ";
    assert (c + name)[|c|..|c| + |name|] == name;
    ContainsAt(c + name, name, |c|);
    ContainsExtended("", c + name, ShortMiddle, name);
    ContainsExtended("", c + name + ShortMiddle, unit, name);
    ContainsExtended("", c + name + ShortMiddle + unit, ShortTail, name);
  }

  /** The work and the short greeting name the member's unit. */
  lemma WishesNameUnit(m: Member, today: Day)
    ensures Contains(Wishes(m, today)[0].content, m.unit)
    ensures Contains(Wishes(m, today)[2].content, m.unit)
  {
    var a := m.Pronoun(today);
    var o := WorkOpening(a, m.name);
    match m.position {
      case Leader => ContainsPart(Wish + Lowered(a) + LeaderPraise, m.unit, LeaderTail);
      case Manager => ContainsPart(Wish + Lowered(a) + ManagerPraise, m.unit, ".");
      case Staff => ContainsPart(Wish + Lowered(a) + StaffPraise, m.unit, ".");
    }
    ContainsExtended(o, WorkClause(a, m.position, m.unit), "", m.unit);
    ContainsPart(Cmsn + a.Text() + " " + m.name + ShortMiddle, m.unit, ShortTail);
  }

  /** Each position has its own work greeting: for the same address, name and
      unit, the work text tells the position. */
  lemma WorkWishTellsPosition(a: Address, name: string, unit: string, p: Position, p': Position)
    ensures WorkWish(a, name, p, unit) == WorkWish(a, name, p', unit) <==> p == p'
  {
    var n := |WorkOpening(a, name)| + |Lowered(a)| + |unit|;
    assert |WorkWish(a, name, Leader, unit)| == n + 72;
    assert |WorkWish(a, name, Manager, unit)| == n + 66;
    assert |WorkWish(a, name, Staff, unit)| == n + 81;
  }

  /** For the same address and name, the life greeting tells gender and
      marital status. */
  lemma LifeWishTellsGenderAndMarital(a: Address, name: string, g: Gender, g': Gender, s: Marital, s': Marital)
    ensures LifeWish(a, name, g, s) == LifeWish(a, name, g', s') <==> g == g' && s == s'
  {
    var l := |Lowered(a)|;
    assert |GenderClause(a, Female)| == l + 48;
    assert |GenderClause(a, Male)| == l + 47;
    assert |MaritalClause(a, Married)| == l + 72;
    assert |MaritalClause(a, Single)| == l + 60;
  }
}
