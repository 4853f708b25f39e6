/**
 * The `Drink` row (one logged dose) and the mapping from its icon tag to
 * one of the six icons the history shows.
 */
module DrinkModel {

  /**
   * One logged dose. `id` is the primary key (a random UUID chosen when
   * the row is created), `timeAdded` is epoch milliseconds, `userId` the
   * owning account.
   */
  datatype Drink = Drink(
    id: string,
    name: string,
    caffeineMg: int,
    timeAdded: int,
    iconName: string,
    userId: string)

  /** The sort key of the history and of the table query. */
  function TimeAdded(d: Drink): int {
    d.timeAdded
  }

  /** The Material icons a drink row can show. */
  datatype Icon = Coffee | Bolt | LocalCafe | LocalDrink | EmojiFoodBeverage | FitnessCenter

  /**
   * `Drink.getIconVector`: a case-sensitive match on the tag, two tags per
   * icon, and every other tag shows the cafe cup.
   */
  function IconOf(tag: string): (r: Icon)
    ensures r == Coffee <==> tag == "Espresso" || tag == "Coffee"
    ensures r == Bolt <==> tag == "Bolt" || tag == "Energy"
    ensures r == LocalDrink <==> tag == "LocalDrink" || tag == "Cola"
    ensures r == EmojiFoodBeverage <==> tag == "EmojiFoodBeverage" || tag == "Tea"
    ensures r == FitnessCenter <==> tag == "FitnessCenter" || tag == "Workout"
    ensures r == LocalCafe <==> tag !in NonDefaultTags
  {
    match tag
    case "Espresso" | "Coffee" => Coffee
    case "Bolt" | "Energy" => Bolt
    case "LocalCafe" | "Latte" => LocalCafe
    case "LocalDrink" | "Cola" => LocalDrink
    case "EmojiFoodBeverage" | "Tea" => EmojiFoodBeverage
    case "FitnessCenter" | "Workout" => FitnessCenter
    case _ => LocalCafe
  }

  /** The tags that select an icon other than the default cafe cup. */
  const NonDefaultTags: set<string> :=
    {"Espresso", "Coffee", "Bolt", "Energy", "LocalDrink", "Cola",
     "EmojiFoodBeverage", "Tea", "FitnessCenter", "Workout"}

  /** The match is on exact strings: a lower-case or empty tag falls to the default. */
  lemma IconMatchIsCaseSensitive()
    ensures IconOf("coffee") == LocalCafe && IconOf("Coffee") == Coffee
    ensures IconOf("tea") == LocalCafe && IconOf("") == LocalCafe
    ensures IconOf("Latte") == LocalCafe && IconOf("LocalCafe") == LocalCafe
  {
  }
}
