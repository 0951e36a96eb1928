/**
 * The collaborators the storage engine calls but does not implement: JSON serialisation
 * of values and of whole dictionaries, the encryption helper, and the textual form of a
 * timestamp. They are given as function values, so the model holds for every
 * implementation; `Lawful` collects the round-trip laws the engine relies on.
 */
module Codec {
  import opened Wrappers

  datatype Codec<!V> = Codec(
    /** `JsonConvert.SerializeObject` on a stored value. */
    serialize: V -> string,
    /** `JsonConvert.DeserializeObject<T>`; `None` when the text does not describe a `V`. */
    deserialize: string -> Option<V>,
    /** `CryptographyHelpers.Encrypt(key, salt, text)`. */
    encrypt: (string, string, string) -> string,
    /** `CryptographyHelpers.Decrypt(key, salt, text)`. */
    decrypt: (string, string, string) -> string,
    /** `DateTime.ToString()` on a timestamp given in whole seconds. */
    formatTime: int -> string,
    /** `DateTime.Parse`, back to whole seconds. */
    parseTime: string -> int,
    /** `JsonConvert.SerializeObject` on a `Dictionary<string, string>`, indented. */
    serializeMap: map<string, string> -> string,
    /** `JsonConvert.DeserializeObject<Dictionary<string, string>>`; `None` when the text is not such a dictionary. */
    deserializeMap: string -> Option<map<string, string>>)

  /** The laws assumed of the collaborators: each decoding undoes its encoding, and a serialised dictionary is never empty text. */
  ghost predicate Lawful<V(!new)>(c: Codec<V>)
  {
    && (forall v: V :: c.deserialize(c.serialize(v)) == Some(v))
    && (forall key, salt, text :: c.decrypt(key, salt, c.encrypt(key, salt, text)) == text)
    && (forall t :: c.parseTime(c.formatTime(t)) == t)
    && (forall m :: c.deserializeMap(c.serializeMap(m)) == Some(m))
    && (forall m :: c.serializeMap(m) != "")
  }
}
