/** The read-only header view the request wrapper hands out over the
    legacy request's header store: raw name/value pairs in the order the
    store holds them, looked up by name without regard to ASCII case. */
module Headers {
  import opened Ascii

  datatype Header = Header(name: Bytes, value: Bytes)

  /** Values of the headers whose name equals `key` once lower-cased, in order. */
  function ValuesFor(raw: seq<Header>, key: Bytes): (values: seq<Bytes>)
    ensures |values| <= |raw|
  {
    if raw == [] then []
    else (if Lower(raw[0].name) == key then [raw[0].value] else []) + ValuesFor(raw[1..], key)
  }

  /** A value is listed for `key` exactly when some header with that
      (lower-cased) name carries it. */
  lemma {:induction false} ValuesForMembership(raw: seq<Header>, key: Bytes, v: Bytes)
    ensures v in ValuesFor(raw, key) <==>
            exists i :: 0 <= i < |raw| && Lower(raw[i].name) == key && raw[i].value == v
  {
    if raw != [] {
      ValuesForMembership(raw[1..], key, v);
      if v in ValuesFor(raw[1..], key) {
        var i :| 0 <= i < |raw[1..]| && Lower(raw[1..][i].name) == key && raw[1..][i].value == v;
        assert raw[i + 1] == raw[1..][i];
      }
      forall i | 1 <= i < |raw| && Lower(raw[i].name) == key && raw[i].value == v
        ensures v in ValuesFor(raw[1..], key)
      {
        assert raw[1..][i - 1] == raw[i];
      }
    }
  }

  /** The lookup keeps the store's order: the values for a store made of
      two parts are those of the first part followed by those of the second. */
  lemma {:induction false} ValuesForAppend(a: seq<Header>, b: seq<Header>, key: Bytes)
    ensures ValuesFor(a + b, key) == ValuesFor(a, key) + ValuesFor(b, key)
  {
    if a == [] {
      assert a + b == b;
    } else {
      ValuesForAppend(a[1..], b, key);
      assert (a + b)[0] == a[0];
      assert (a + b)[1..] == a[1..] + b;
    }
  }

  datatype HeaderView = HeaderView(raw: seq<Header>) {

    /** Every name/value pair of the legacy store. */
    function RawHeaders(): seq<Header> {
      raw
    }

    /** All values given for `name`, matched without regard to ASCII case,
        in the order the store holds them. */
    function GetValues(name: Bytes): (values: seq<Bytes>)
      ensures forall v :: v in values <==>
                exists i :: 0 <= i < |raw| && Lower(raw[i].name) == Lower(name) && raw[i].value == v
    {
      var values := ValuesFor(raw, Lower(name));
      forall v ensures v in values <==>
          exists i :: 0 <= i < |raw| && Lower(raw[i].name) == Lower(name) && raw[i].value == v
      {
        ValuesForMembership(raw, Lower(name), v);
      }
      values
    }
  }

  /** Names that differ only in ASCII case look up the same values. */
  lemma GetValuesIgnoresCase(view: HeaderView, a: Bytes, b: Bytes)
    requires Lower(a) == Lower(b)
    ensures view.GetValues(a) == view.GetValues(b)
  {
  }

  /** Looking up a lower-cased name is looking up the name itself. */
  lemma GetValuesLowered(view: HeaderView, name: Bytes)
    ensures view.GetValues(Lower(name)) == view.GetValues(name)
  {
    LowerIdempotent(name);
  }
}
