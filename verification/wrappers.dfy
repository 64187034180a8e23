/** The value types the whole model shares. */
module Wrappers {
  /** Go's optional values and its (value, error) returns. */
  datatype Option<+T> = None | Some(value: T)

  datatype Result<+T, +E> = Ok(value: T) | Err(error: E)

  /** A text column or a string identifier. */
  datatype Text = Text(chars: string)

  const NO_TEXT := Text("")

  /** Some row comes first when rows are ordered by a column, greatest first. */
  lemma GreatestExists<K, V>(rows: map<K, V>, ids: set<K>, column: V -> int)
    requires ids != {} && ids <= rows.Keys
    ensures exists id :: id in ids && forall other :: other in ids ==> column(rows[other]) <= column(rows[id])
  {
    var id :| id in ids;
    if ids != {id} {
      GreatestExists(rows, ids - {id}, column);
      var best :| best in ids - {id} &&
        forall other :: other in ids - {id} ==> column(rows[other]) <= column(rows[best]);
      var greatest := if column(rows[id]) <= column(rows[best]) then best else id;
      forall other | other in ids
        ensures column(rows[other]) <= column(rows[greatest])
      {
        assert other == id || other in ids - {id};
      }
      assert greatest in ids;
    }
  }
}
