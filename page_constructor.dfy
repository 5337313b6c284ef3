/** The page constructors' shared string store: one key-value map that
    every page constructor reads and writes, used to hand values from one
    page to the next. */
module SharedData {
  import opened StringMaps

  /** `shared_data_map_`: a single static map, so one object models it. */
  class SharedDataStore {
    var data: map<string, string>

    constructor ()
      ensures data == map[]
    {
      data := map[];
    }

    /** `set_shared_data`: stores or overwrites. */
    method SetSharedData(key: string, value: string)
      modifies this
      ensures data == old(data)[key := value]
      ensures |data| == |old(data)| + (if key in old(data) then 0 else 1)
    {
      StoreSize(data, key, value, key, value);
      data := data[key := value];
    }

    /** `get_shared_data`: the stored value, or the default when the key
        was never set or has been removed. */
    method GetSharedData(key: string, default: string) returns (v: string)
      ensures v == Lookup(data, key, default)
      ensures HasSharedData(key) ==> v == data[key]
    {
      if key in data {
        return data[key];
      }
      return default;
    }

    /** `remove_shared_data`: true exactly when the key was there, and it is
        gone afterwards. */
    method RemoveSharedData(key: string) returns (removed: bool)
      modifies this
      ensures removed <==> key in old(data)
      ensures data == old(data) - {key} && key !in data
      ensures |data| == |old(data)| - (if removed then 1 else 0)
    {
      EraseSize(data, key);
      if key in data {
        data := data - {key};
        return true;
      }
      return false;
    }

    /** `has_shared_data`. */
    predicate HasSharedData(key: string)
      reads this
      ensures HasSharedData(key) ==> GetSharedDataCount() >= 1
    {
      key in data
    }

    /** `clear_shared_data`. */
    method ClearSharedData()
      modifies this
      ensures data == map[] && GetSharedDataCount() == 0
    {
      data := map[];
    }

    /** `get_shared_data_count`. */
    function GetSharedDataCount(): (n: nat)
      reads this
      ensures n == 0 <==> data == map[]
    {
      |data|
    }
  }

  /** A value set and read back: the read sees it whatever the default, and
      other keys read as before. */
  lemma GetAfterSet(m: map<string, string>, key: string, value: string, other: string, default: string)
    ensures Lookup(m[key := value], key, default) == value
    ensures other != key ==> Lookup(m[key := value], other, default) == Lookup(m, other, default)
  {
    StoreSize(m, key, value, other, default);
  }

  /** After a removal the key reads as the default and counts as absent. */
  lemma GetAfterRemove(m: map<string, string>, key: string, default: string)
    ensures Lookup(m - {key}, key, default) == default && key !in m - {key}
  {
  }
}
