/**
 * The data side of the `Huntable` trait (src/Huntable.php): what a model
 * reports about itself to the Hunter.
 */
module Huntable {
  import opened Php

  /** `getMappingProperties`: the class's `$mappingProperties`, or `[]` when that is falsy. */
  function GetMappingProperties(m: Model): (r: Value)
    ensures Truthy(m.info.mappingProperties) ==> r == m.info.mappingProperties
    ensures !Truthy(m.info.mappingProperties) ==> r == Arr([])
    ensures r.Arr? || Truthy(r)
  {
    if Truthy(m.info.mappingProperties) then m.info.mappingProperties else Arr([])
  }

  /** `getHunterIndex`: the model's table. */
  function GetHunterIndex(m: Model): (r: Value)
    ensures r.Str? && r.s == m.info.table
  {
    Str(m.info.table)
  }

  /** `getHunterDocumentData`: the model's `toArray()`. */
  function GetHunterDocumentData(m: Model): (r: seq<Pair>)
    ensures r == m.data
  {
    m.data
  }

  /** A fresh `new static` instance of a class: no key, no data, `documentScore` null. */
  function NewInstance(cls: string, info: ClassInfo): (m: Model)
    ensures m.cls == cls && m.info == info
    ensures m.documentScore == Null && m.data == [] && m.key == Null
  {
    Model(cls, info, Null, [], Null)
  }
}
