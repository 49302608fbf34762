/** What the two stream buffers share. */
module StreamTypes {
  import opened Numerals

  function Min(a: nat, b: nat): nat {
    if a < b then a else b
  }

  function Max(a: nat, b: nat): nat {
    if a < b then b else a
  }

  /** int_type: a character or eof */
  datatype IntType = Eof | Char(c: byte)
}
