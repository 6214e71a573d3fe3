/** `chrome.storage.local` as the extension uses it: a map from string keys
    to string values. Every call may throw (the `fault` argument says whether
    this one does); a call that throws changes nothing. */
module ChromeStorage {
  import opened Wrappers

  /** What `chrome.storage.local.get(key)` resolves to: the entry under `key`
      if there is one, or a rejection. */
  datatype StorageRead = ReadFailed | Read(entry: Option<string>)

  class LocalStorage {
    var items: map<string, string>

    /** A fresh profile: nothing stored. */
    constructor ()
      ensures items == map[]
    {
      items := map[];
    }

    /** `chrome.storage.local.get(key)`. */
    function Get(key: string, fault: bool): (r: StorageRead)
      reads this
      ensures r.ReadFailed? <==> fault
      ensures r.Read? ==> (r.entry.Some? <==> key in items)
      ensures r.Read? && key in items ==> r.entry.value == items[key]
    {
      if fault then ReadFailed
      else if key in items then Read(Some(items[key]))
      else Read(None)
    }

    /** `chrome.storage.local.set({[key]: value})`; `ok` is false when it throws. */
    method Set(key: string, value: string, fault: bool) returns (ok: bool)
      modifies this
      ensures ok == !fault
      ensures items == if ok then old(items)[key := value] else old(items)
    {
      ok := !fault;
      if ok {
        items := items[key := value];
      }
    }

    /** `chrome.storage.local.remove(key)`; `ok` is false when it throws. */
    method Remove(key: string, fault: bool) returns (ok: bool)
      modifies this
      ensures ok == !fault
      ensures items == if ok then old(items) - {key} else old(items)
    {
      ok := !fault;
      if ok {
        items := items - {key};
      }
    }
  }
}
