/**
 * The browser's `localStorage` as the pages use it: string values under
 * string keys. A write may be refused by the browser (a full quota, storage
 * switched off); the caller passes whether it is accepted.
 */
module Storage {
  import opened Wrappers

  class LocalStorage {
    var items: map<string, string>

    constructor ()
      ensures items == map[]
    {
      items := map[];
    }

    /** `getItem(key)`: the stored value, or `null` (`None`) for a key never set or since removed. */
    function GetItem(key: string): (r: Option<string>)
      reads this
      ensures r.Some? <==> key in items
      ensures r.Some? ==> r.value == items[key]
    {
      if key in items then Some(items[key]) else None
    }

    /**
     * `setItem(key, value)`: when the browser accepts the write the key
     * holds the value and no other key changes; when it refuses (the call
     * throws, reported here as `false`) nothing changes.
     */
    method SetItem(key: string, value: string, accepted: bool) returns (ok: bool)
      modifies this
      ensures ok == accepted
      ensures items == if accepted then old(items)[key := value] else old(items)
    {
      ok := accepted;
      if accepted {
        items := items[key := value];
      }
    }

    /** `removeItem(key)`: the key is gone and no other key changes. */
    method RemoveItem(key: string)
      modifies this
      ensures items == old(items) - {key}
    {
      items := items - {key};
    }
  }
}
