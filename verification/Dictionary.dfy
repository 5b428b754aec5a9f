/** The object dictionary: variables by index, or by index and subindex. */
module Dictionary {
  import opened Common

  /** A plain variable, or a record or array of variables; `V` is what a user of the dictionary knows of one. */
  datatype OdEntry<V> = Variable(variable: V) | Group(members: map<nat, V>)

  type ObjectDictionary<V> = map<nat, OdEntry<V>>

  datatype Missing = NoIndex | NoSubindex

  /** A plain variable is found under every subindex. */
  function Find<V>(od: ObjectDictionary<V>, index: nat, subindex: nat): Result<V, Missing> {
    if index !in od then Err(NoIndex)
    else match od[index]
      case Variable(v) => Ok(v)
      case Group(members) => if subindex in members then Ok(members[subindex]) else Err(NoSubindex)
  }
}
