/** The persisted secret key (script.js:25-58): the browser's `localStorage` as a map from
    names to strings, the two wrappers that read and write the entry named `'secretKey'`,
    and the load-or-generate rule the page runs once on every load. */
module KeyStore {
  import opened Wrappers
  import opened HexKey

  /** The fixed name the key is stored under. */
  const SecretKeyName: string := "secretKey"

  /** `localStorage.getItem(name)`: the stored string, or `null` (None) when there is none. */
  function Lookup(items: map<string, string>, name: string): (v: Option<string>)
    ensures v.Some? <==> name in items
    ensures v.Some? ==> v.value == items[name]
  {
    if name in items then Some(items[name]) else None
  }

  /** JavaScript's `!value` on what `getItem` returns: `null` and the empty string are falsy,
      every other string is truthy. */
  predicate Falsy(v: Option<string>) {
    v.None? || v.value == ""
  }

  /** The browser's persistent key-value store. It outlives a page: every load of the page
      sees what earlier loads wrote. */
  class LocalStorage {
    var items: map<string, string>

    constructor (items: map<string, string>)
      ensures this.items == items
    {
      this.items := items;
    }

    /** `localStorage.getItem(name)`. */
    method GetItem(name: string) returns (v: Option<string>)
      ensures v == Lookup(items, name)
    {
      v := Lookup(items, name);
    }

    /** `localStorage.setItem(name, value)`: that entry now holds `value`, the others are kept. */
    method SetItem(name: string, value: string)
      modifies this
      ensures items == old(items)[name := value]
    {
      items := items[name := value];
    }
  }

  /** `getKeyFromLocalStorage` (script.js:41-43). */
  method GetKeyFromLocalStorage(storage: LocalStorage) returns (key: Option<string>)
    ensures key.Some? <==> SecretKeyName in storage.items
    ensures key.Some? ==> key.value == storage.items[SecretKeyName]
  {
    key := storage.GetItem(SecretKeyName);
  }

  /** `saveKeyToLocalStorage` (script.js:31-33). */
  method SaveKeyToLocalStorage(storage: LocalStorage, key: string)
    modifies storage
    ensures storage.items == old(storage.items)[SecretKeyName := key]
  {
    storage.SetItem(SecretKeyName, key);
  }

  /** What a page load leaves behind: the store's entries and the in-memory key. */
  datatype Provisioned = Provisioned(items: map<string, string>, key: string)

  /** The load-or-generate rule (script.js:50-58) on values: keep a truthy stored key,
      otherwise generate one from the random bytes and store it. After it the store holds a
      non-empty key under `'secretKey'`, equal to the in-memory key, and no other entry changes. */
  function LoadKey(items: map<string, string>, randomBytes: seq<byte>): (r: Provisioned)
    requires |randomBytes| == KeyBytes
    ensures SecretKeyName in r.items && r.items[SecretKeyName] == r.key
    ensures r.key != ""
    ensures r.items - {SecretKeyName} == items - {SecretKeyName}
  {
    var stored := Lookup(items, SecretKeyName);
    if Falsy(stored) then
      var key := GenerateSecretKey(randomBytes);
      assert |key| == 32;
      assert items[SecretKeyName := key] - {SecretKeyName} == items - {SecretKeyName};
      Provisioned(items[SecretKeyName := key], key)
    else
      Provisioned(items, stored.value)
  }

  /** A stored non-empty key is reused as it is and nothing is written. */
  lemma LoadKeyReuses(items: map<string, string>, randomBytes: seq<byte>)
    requires |randomBytes| == KeyBytes
    requires SecretKeyName in items && items[SecretKeyName] != ""
    ensures LoadKey(items, randomBytes) == Provisioned(items, items[SecretKeyName])
  {
  }

  /** With no usable stored key, the key is the encoding of the random bytes: 32 lower-case
      hexadecimal characters, written under `'secretKey'`. */
  lemma LoadKeyGenerates(items: map<string, string>, randomBytes: seq<byte>)
    requires |randomBytes| == KeyBytes
    requires Falsy(Lookup(items, SecretKeyName))
    ensures var r := LoadKey(items, randomBytes);
      && r.key == EncodeHex(randomBytes)
      && |r.key| == 32 && AllLowerHex(r.key)
      && r.items == items[SecretKeyName := r.key]
  {
  }

  /** A stored empty string is handled exactly as if no key were stored. */
  lemma LoadKeyEmptyIsAbsent(items: map<string, string>, randomBytes: seq<byte>)
    requires |randomBytes| == KeyBytes
    requires SecretKeyName in items && items[SecretKeyName] == ""
    ensures LoadKey(items, randomBytes) == LoadKey(items - {SecretKeyName}, randomBytes)
  {
  }

  /** Reloading is idempotent: a second load, whatever random bytes it would draw, finds the
      key the first load left, writes nothing and ends with the same key. */
  lemma LoadKeyIdempotent(items: map<string, string>, firstBytes: seq<byte>, laterBytes: seq<byte>)
    requires |firstBytes| == KeyBytes && |laterBytes| == KeyBytes
    ensures LoadKey(LoadKey(items, firstBytes).items, laterBytes) == LoadKey(items, firstBytes)
  {
  }
}
