/**
 * The host's key/value configuration store, reduced to what the entry uses:
 * properties addressed by a category and a key, read with get-or-create and
 * overwritten with set.
 */
module Config {

  /** (category, key) */
  type PropertyKey = (string, string)

  /** The value `get` returns: the stored one, or the default when the key is new. */
  function GetOrDefault(properties: map<PropertyKey, string>, key: PropertyKey, defaultValue: string): string {
    if key in properties then properties[key] else defaultValue
  }

  class Configuration {
    var properties: map<PropertyKey, string>

    constructor ()
      ensures properties == map[]
    {
      properties := map[];
    }

    /**
     * `config.get(category, key, defaultValue).getString()`: the stored
     * value, after creating the property with `defaultValue` if it was absent.
     */
    method Get(category: string, key: string, defaultValue: string) returns (value: string)
      modifies this
      ensures value == GetOrDefault(old(properties), (category, key), defaultValue)
      ensures properties == old(properties)[(category, key) := value]
    {
      value := GetOrDefault(properties, (category, key), defaultValue);
      properties := properties[(category, key) := value];
    }

    /** `property.set(value)` on the property at (category, key). */
    method Set(category: string, key: string, value: string)
      modifies this
      ensures properties == old(properties)[(category, key) := value]
    {
      properties := properties[(category, key) := value];
    }
  }
}
