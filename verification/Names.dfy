/** Newtype wrappers for the kinds of name in a schema (`crates/core/src/names.rs`). */
module Names {
  datatype ModelName = ModelName(text: string)
  datatype FieldName = FieldName(text: string)
  datatype EnumName = EnumName(text: string)
}
