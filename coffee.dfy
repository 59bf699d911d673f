/** The coffee decorator: SimpleCoffee is the base, and MilkDecorator and
    SugarDecorator each wrap another coffee, adding to its cost and to its
    description. The wrapped coffee is fixed at construction, so a coffee is
    a value: the chain of wrappers around the base. */
module Coffee {
  datatype Coffee =
    | SimpleCoffee
    | MilkDecorator(coffee: Coffee)
    | SugarDecorator(coffee: Coffee)

  /** One wrapper, as the list of add-ons names it. */
  datatype Addon = Milk | Sugar

  const SimpleCost: int := 50
  const MilkCost: int := 20
  const SugarCost: int := 10

  /** cost(): the base price plus each wrapper's surcharge, in rupees. */
  function Cost(c: Coffee): int
  {
    match c
    case SimpleCoffee => SimpleCost
    case MilkDecorator(inner) => Cost(inner) + MilkCost
    case SugarDecorator(inner) => Cost(inner) + SugarCost
  }

  /** getDescription(): the base's name followed by one suffix per wrapper,
      innermost first. */
  function Description(c: Coffee): string
  {
    match c
    case SimpleCoffee => "Simple Coffee"
    case MilkDecorator(inner) => Description(inner) + ", Milk"
    case SugarDecorator(inner) => Description(inner) + ", Sugar"
  }

  /** The wrappers around the base, innermost first. */
  function Addons(c: Coffee): seq<Addon>
  {
    match c
    case SimpleCoffee => []
    case MilkDecorator(inner) => Addons(inner) + [Milk]
    case SugarDecorator(inner) => Addons(inner) + [Sugar]
  }

  /** Wraps c in the given add-ons, first one innermost. */
  function Wrap(c: Coffee, addons: seq<Addon>): Coffee
    decreases |addons|
  {
    if addons == [] then c
    else
      var last := addons[|addons| - 1];
      var inner := Wrap(c, addons[..|addons| - 1]);
      if last == Milk then MilkDecorator(inner) else SugarDecorator(inner)
  }

  function Count(addons: seq<Addon>, a: Addon): nat
  {
    if addons == [] then 0
    else Count(addons[..|addons| - 1], a) + (if addons[|addons| - 1] == a then 1 else 0)
  }

  function Suffix(a: Addon): string
  {
    if a == Milk then ", Milk" else ", Sugar"
  }

  function Suffixes(addons: seq<Addon>): string
  {
    if addons == [] then ""
    else Suffixes(addons[..|addons| - 1]) + Suffix(addons[|addons| - 1])
  }

  /** Every coffee is the base wrapped in its own add-ons. */
  lemma {:induction false} WrapAddons(c: Coffee)
    ensures Wrap(SimpleCoffee, Addons(c)) == c
  {
    match c
    case SimpleCoffee =>
    case MilkDecorator(inner) =>
      WrapAddons(inner);
      assert Addons(c)[..|Addons(c)| - 1] == Addons(inner);
    case SugarDecorator(inner) =>
      WrapAddons(inner);
      assert Addons(c)[..|Addons(c)| - 1] == Addons(inner);
  }

  /** Wrapping the base in a list of add-ons gives back that list. */
  lemma {:induction false} AddonsWrap(addons: seq<Addon>)
    ensures Addons(Wrap(SimpleCoffee, addons)) == addons
    decreases |addons|
  {
    if addons != [] {
      AddonsWrap(addons[..|addons| - 1]);
      assert addons == addons[..|addons| - 1] + [addons[|addons| - 1]];
    }
  }

  /** The price of any chain: 50 plus 20 per milk and 10 per sugar,
      whatever the order of the wrappers. */
  lemma {:induction false} CostClosedForm(c: Coffee)
    ensures Cost(c) == SimpleCost + MilkCost * Count(Addons(c), Milk) + SugarCost * Count(Addons(c), Sugar)
  {
    match c
    case SimpleCoffee =>
    case MilkDecorator(inner) =>
      CostClosedForm(inner);
      assert Addons(c)[..|Addons(c)| - 1] == Addons(inner);
    case SugarDecorator(inner) =>
      CostClosedForm(inner);
      assert Addons(c)[..|Addons(c)| - 1] == Addons(inner);
  }

  /** No chain costs less than the base, and every wrapper raises the price. */
  lemma {:induction false} CostAtLeastBase(c: Coffee)
    ensures Cost(c) >= SimpleCost + 10 * |Addons(c)|
  {
    match c
    case SimpleCoffee =>
    case MilkDecorator(inner) => CostAtLeastBase(inner);
    case SugarDecorator(inner) => CostAtLeastBase(inner);
  }

  /** The description is "Simple Coffee" followed by the wrappers' suffixes
      in wrapping order. */
  lemma {:induction false} DescriptionOfAddons(c: Coffee)
    ensures Description(c) == "Simple Coffee" + Suffixes(Addons(c))
  {
    if c != SimpleCoffee {
      var inner := c.coffee;
      var a := if c.MilkDecorator? then Milk else Sugar;
      DescriptionOfAddons(inner);
      assert Addons(c) == Addons(inner) + [a];
      assert Addons(c)[..|Addons(c)| - 1] == Addons(inner);
      assert Suffixes(Addons(c)) == Suffixes(Addons(inner)) + Suffix(a);
      assert Description(c) == Description(inner) + Suffix(a);
      assert ("Simple Coffee" + Suffixes(Addons(inner))) + Suffix(a)
          == "Simple Coffee" + (Suffixes(Addons(inner)) + Suffix(a));
    }
  }

  /** The demo's three coffees: plain, then milk, then milk and sugar. */
  lemma DemoChain()
    ensures Cost(SimpleCoffee) == 50 && Description(SimpleCoffee) == "Simple Coffee"
    ensures Cost(MilkDecorator(SimpleCoffee)) == 70
    ensures Description(MilkDecorator(SimpleCoffee)) == "Simple Coffee, Milk"
    ensures Cost(SugarDecorator(MilkDecorator(SimpleCoffee))) == 80
    ensures Description(SugarDecorator(MilkDecorator(SimpleCoffee))) == "Simple Coffee, Milk, Sugar"
  {
  }
}
