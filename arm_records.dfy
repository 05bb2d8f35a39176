/** The ARM dictionary as the renderers see it: every operand kind and memory
    offset is a record of string tags and integer args, and some args are
    indices of other records in the dictionary. */
module ArmRecords {
  import opened Base

  /** An ARM dictionary record: tags[0] names the variant. */
  datatype Record = Record(tags: seq<string>, args: seq<int>)

  /** The lookups the renderers make into the dictionary:
      `registerShift(i)` is the text of the register shift-rotate at index i,
      `memoryOffset(i)` the memory-offset record at index i, `address(i)` the
      text of the address at index i, `operand(i)` the operand record at
      index i, and `recordText(r)` the text a record
      gets from the generic dictionary-record class when its own class
      defines no rendering. */
  datatype ArmDictionary = ArmDictionary(
    registerShift: int -> string,
    memoryOffset: int -> Record,
    address: int -> string,
    operand: int -> Record,
    recordText: Record -> string)

  /** The variant tag of a record, "" for a record without tags. */
  function Tag(r: Record): (t: string)
    ensures |r.tags| > 0 ==> t == r.tags[0]
    ensures |r.tags| == 0 ==> t == ""
  {
    if |r.tags| > 0 then r.tags[0] else ""
  }

  /** ARMOpcode.check_key(ntags, nargs, name): an opcode record of the wrong
      shape is refused at construction. */
  function CheckKey(r: Record, ntags: nat, nargs: nat, name: string): (c: Result<Record, string>)
    ensures c.Ok? <==> |r.tags| == ntags && |r.args| == nargs
    ensures c.Ok? ==> c.value == r
  {
    if |r.tags| == ntags && |r.args| == nargs then Ok(r)
    else Err(name + ": expected " + Str(ntags) + " tags and " + Str(nargs) + " args")
  }
}
