/** The browser's `localStorage`, holding medicine lists under string keys.
    The JSON text the browser actually stores is left out: each key holds
    the decoded list. A stored JSON array is never the empty string, so
    "`getItem` returned something truthy" is "the key is present". */
module Storage {
  import opened Wrappers
  import opened MedicineTypes

  /** The key the pages and the notification hook read and write. */
  const PagesKey: string := "medicines"

  class LocalStorage {
    var items: map<string, seq<Medicine>>

    constructor (initial: map<string, seq<Medicine>>)
      ensures items == initial
    {
      items := initial;
    }

    /** `localStorage.getItem(key)`; `None` stands for `null`. */
    function GetItem(key: string): Option<seq<Medicine>>
      reads this
    {
      if key in items then Some(items[key]) else None
    }

    /** `localStorage.setItem(key, value)`. */
    method SetItem(key: string, value: seq<Medicine>)
      modifies this
      ensures items == old(items)[key := value]
    {
      items := items[key := value];
    }
  }

  /** `stored ? JSON.parse(stored) : []`. */
  function Load(items: map<string, seq<Medicine>>, key: string): seq<Medicine> {
    if key in items then items[key] else []
  }

  /** Reading a key gives what was last written under it, and writing one
      key leaves every other key's list as it was. */
  lemma LoadAfterWrite(items: map<string, seq<Medicine>>, key: string, value: seq<Medicine>, other: string)
    ensures Load(items[key := value], key) == value
    ensures other != key ==> Load(items[key := value], other) == Load(items, other)
  {
  }
}
