/** The ASP.NET session: a per-user map from keys to stored values, changed in place. */
module HttpSession {
  import opened Base

  /** A stored value, as written by `SetInt32` or `SetString`. */
  datatype SessionValue = IntValue(i: Int32) | StringValue(s: string)

  class Session {
    var entries: map<string, SessionValue>

    constructor()
      ensures entries == map[]
    {
      entries := map[];
    }

    /** `Session.GetInt32(key)`: null unless an int is stored under `key`. */
    function GetInt32(key: string): (r: Option<Int32>)
      reads this
      ensures r != None <==> key in entries && entries[key].IntValue?
      ensures r != None ==> entries[key] == IntValue(r.value)
    {
      if key in entries && entries[key].IntValue? then Some(entries[key].i) else None
    }

    /** `Session.GetString(key)`: null unless a string is stored under `key`. */
    function GetString(key: string): (r: Option<string>)
      reads this
      ensures r != None <==> key in entries && entries[key].StringValue?
      ensures r != None ==> entries[key] == StringValue(r.value)
    {
      if key in entries && entries[key].StringValue? then Some(entries[key].s) else None
    }

    method SetInt32(key: string, value: Int32)
      modifies this
      ensures entries == old(entries)[key := IntValue(value)]
      ensures GetInt32(key) == Some(value)
    {
      entries := entries[key := IntValue(value)];
    }

    method SetString(key: string, value: string)
      modifies this
      ensures entries == old(entries)[key := StringValue(value)]
      ensures GetString(key) == Some(value)
    {
      entries := entries[key := StringValue(value)];
    }

    method Remove(key: string)
      modifies this
      ensures entries == old(entries) - {key}
      ensures GetInt32(key) == None && GetString(key) == None
    {
      entries := entries - {key};
    }
  }
}
