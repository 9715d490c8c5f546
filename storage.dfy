/** `DataManager`: the session store every component reads and writes,
    reduced to a map from keys to JSON values, plus the `dataUpdated`
    notices `saveData` dispatches (each carries the key it saved). */
module Storage {
  import opened Json

  class DataManager {
    var items: map<string, Json>
    var notices: seq<string>

    constructor ()
      ensures items == map[] && notices == []
    {
      items := map[];
      notices := [];
    }

    /** `getData(key)`: the value last saved under `key`, or null. */
    function GetData(key: string): (r: Json)
      reads this
      ensures key in items ==> r == items[key]
      ensures key !in items ==> r == JNull
    {
      if key in items then items[key] else JNull
    }

    /** `saveData(key, value)`: stores the value and sends a `dataUpdated`
        notice carrying the key. */
    method SaveData(key: string, value: Json)
      modifies this
      ensures items == old(items)[key := value]
      ensures GetData(key) == value
      ensures forall k :: k != key ==> GetData(k) == old(GetData(k))
      ensures notices == old(notices) + [key]
    {
      items := items[key := value];
      notices := notices + [key];
    }

    /** `clearData(key)`: removes the key; no notice is sent. */
    method ClearData(key: string)
      modifies this
      ensures items == old(items) - {key}
      ensures GetData(key) == JNull
      ensures forall k :: k != key ==> GetData(k) == old(GetData(k))
      ensures notices == old(notices)
    {
      items := items - {key};
    }

    /** `appendToArray(key, value)`: a missing or non-array value is first
        replaced by an empty array; the value goes last and the array is
        saved, with its notice. */
    method AppendToArray(key: string, value: Json)
      modifies this
      ensures GetData(key) == JArr(ArrayItems(old(GetData(key))) + [value])
      ensures |ArrayItems(GetData(key))| == |ArrayItems(old(GetData(key)))| + 1
      ensures forall k :: k != key ==> GetData(k) == old(GetData(k))
      ensures notices == old(notices) + [key]
    {
      var existing := GetData(key);
      var items := if existing.JArr? then existing.items else [];
      SaveData(key, JArr(items + [value]));
    }
  }
}
