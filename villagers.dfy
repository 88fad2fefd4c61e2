/** The villager record as the list view sees it, and the sort options of its select control. */
module Villagers {

  /** The five entries of `sortOptions`. */
  datatype SortKey = Personality | Species | Hobby | Birthday | Name

  /**
   * A villager record of the remote API. `nameUSen` is `name['name-USen']`;
   * `birthday` is the `"day/month"` text; `otherStrings` are the record's
   * remaining string-valued properties (file name, gender, catch phrase, ...).
   * The numeric `id` and the `name` object are not strings.
   */
  datatype Villager = Villager(
    id: int,
    nameUSen: string,
    personality: string,
    species: string,
    hobby: string,
    birthday: string,
    otherStrings: seq<string>)

  /** The strings among `Object.values(villager)`, the values a filter is matched against. */
  function Values(v: Villager): seq<string>
  {
    [v.personality, v.birthday, v.species, v.hobby] + v.otherStrings
  }

  /** The text a non-birthday sort key compares: `name['name-USen']` or `villager[property]`. */
  function TextField(key: SortKey, v: Villager): string
    requires key != Birthday
  {
    match key
    case Name => v.nameUSen
    case Personality => v.personality
    case Species => v.species
    case Hobby => v.hobby
  }
}
