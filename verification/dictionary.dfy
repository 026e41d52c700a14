/** The interning dictionary's reserved "not yet resolved" id. */
module DictionaryUtil {

  /** The value `DictionaryUtil.nullValue()` returns; every real id differs from it. */
  const NullValue: int := 0
}
