/** HTTP header names and values from the echo framework that the
    compression code uses, and a response header as Go's `http.Header`:
    `Set` replaces whatever the key held. Keys here are already in
    canonical form, so canonicalisation is not modelled. */
module HTTPHeader {
  const HeaderAcceptEncoding: string := "Accept-Encoding"
  const HeaderContentEncoding: string := "Content-Encoding"
  const HeaderContentType: string := "Content-Type"
  const MIMEApplicationJSONCharsetUTF8: string := "application/json; charset=UTF-8"

  /** `Header.Get`: the value under `key`, or "" when there is none. */
  function Get(fields: map<string, string>, key: string): (v: string)
    ensures key !in fields ==> v == ""
    ensures key in fields ==> v == fields[key]
  {
    if key in fields then fields[key] else ""
  }

  class Header {
    var fields: map<string, string>

    constructor (fields: map<string, string>)
      ensures this.fields == fields
    {
      this.fields := fields;
    }

    /** `Header.Set(key, value)`. */
    method Set(key: string, value: string)
      modifies this
      ensures fields == old(fields)[key := value]
    {
      fields := fields[key := value];
    }

    /** `for key, value := range params { header.Set(key, value) }`: the
        map is visited in some order, and as its keys are distinct the
        result is the same in every order. */
    method SetAll(params: map<string, string>)
      modifies this
      ensures fields == old(fields) + params
    {
      var rest := params.Keys;
      ghost var done: set<string> := {};
      while rest != {}
        invariant rest + done == params.Keys && rest !! done
        invariant fields == old(fields) + map k | k in done :: params[k]
        decreases rest
      {
        var key :| key in rest;
        Set(key, params[key]);
        rest := rest - {key};
        done := done + {key};
      }
      assert (map k | k in done :: params[k]) == params;
    }
  }
}
