/** The shared code-to-URL store, written by storeUrlMapping and read by the
    redirect path. The Redis server behind it is modelled as a map. */
module Store {
  import opened ShortCode

  datatype Option<T> = None | Some(value: T)

  class KeyValueStore {
    /** The mappings, short code to original URL. */
    var mappings: map<string, string>

    constructor ()
      ensures mappings == map[]
    {
      mappings := map[];
    }

    /** GET key: the stored URL, or None when the key is missing. */
    function Get(key: string): (r: Option<string>)
      reads this
      ensures r.Some? <==> key in mappings
      ensures r.Some? ==> r.value == mappings[key]
    {
      if key in mappings then Some(mappings[key]) else None
    }

    /** storeUrlMapping (main.go): extract the code from its first argument and
        SET code -> originalUrl. The write is done at once; the returned error
        is always nil (None). */
    method StoreUrlMapping(shortUrl: string, originalUrl: string) returns (err: Option<string>)
      modifies this
      ensures err == None
      ensures mappings == old(mappings)[ExtractShortCode(shortUrl) := originalUrl]
    {
      var shortCode := ExtractShortCode(shortUrl);
      mappings := mappings[shortCode := originalUrl];
      err := None;
    }
  }
}
