/** The JSON text that the audit table's `addresses` column holds: the resolved
    address list marshalled as a JSON array of dotted-decimal strings when a lookup is
    recorded (main.go:136), and unmarshalled again when history is read (main.go:183). */
module AddressJson {
  import opened Wrappers
  import opened Text
  import opened Ipv4

  /** A JSON string literal holding `t`; dotted-decimal text needs no escapes. */
  function Quote(t: string): string
  {
    ['"'] + t + ['"']
  }

  /** The array elements, one quoted address each. */
  function Items(ips: seq<Ip4>): (items: seq<string>)
    ensures |items| == |ips|
  {
    seq(|ips|, i requires 0 <= i < |ips| => Quote(Format(ips[i])))
  }

  /** json.Marshal of an address list: `["a.b.c.d","e.f.g.h"]`, in list order. */
  function Encode(ips: seq<Ip4>): string
  {
    "[" + Join(Items(ips), ',') + "]"
  }

  /** One array element: a string literal holding an IPv4 address. */
  function DecodeItem(p: string): Option<Ip4>
  {
    if |p| >= 2 && p[0] == '"' && p[|p| - 1] == '"' then ParseIp(p[1..|p| - 1]) else None
  }

  function DecodeItems(parts: seq<string>): (r: Option<seq<Ip4>>)
    ensures r.Some? ==> |r.value| == |parts|
  {
    if |parts| == 0 then Some([])
    else match (DecodeItem(parts[0]), DecodeItems(parts[1..]))
      case (Some(ip), Some(rest)) => Some([ip] + rest)
      case _ => None
  }

  /** json.Unmarshal into an address list, for the compact form json.Marshal writes;
      `null` is the nil list. None is the error that main.go:183 discards. */
  function Decode(s: string): Option<seq<Ip4>>
  {
    if s == "null" then Some([])
    else if |s| >= 2 && s[0] == '[' && s[|s| - 1] == ']' then
      var inner := s[1..|s| - 1];
      if inner == "" then Some([]) else DecodeItems(Split(inner, ','))
    else None
  }

  /** What main.go:183 leaves in the history entry: the decoded list, or the nil
      (empty) list when decoding failed, since the error is dropped. */
  function DecodeOrNil(s: string): seq<Ip4>
  {
    match Decode(s)
    case Some(ips) => ips
    case None => []
  }

  lemma DecodeQuoted(ip: Ip4)
    ensures DecodeItem(Quote(Format(ip))) == Some(ip)
  {
    var q := Quote(Format(ip));
    assert q[1..|q| - 1] == Format(ip);
    ParseFormat(ip);
  }

  lemma {:induction false} DecodeAllItems(ips: seq<Ip4>)
    ensures DecodeItems(Items(ips)) == Some(ips)
    decreases |ips|
  {
    if |ips| > 0 {
      assert Items(ips)[1..] == Items(ips[1..]);
      DecodeQuoted(ips[0]);
      DecodeAllItems(ips[1..]);
      assert [ips[0]] + ips[1..] == ips;
    }
  }

  /** No element contains the ',' that separates elements. */
  lemma ItemsHaveNoComma(ips: seq<Ip4>)
    ensures forall i :: 0 <= i < |ips| ==> ',' !in Items(ips)[i]
  {
    forall i | 0 <= i < |ips| ensures ',' !in Items(ips)[i] {
      FormatAlphabet(ips[i]);
    }
  }

  /** The address round trip: decoding the JSON written for an address list gives the
      same list in the same order. */
  lemma {:induction false} DecodeEncode(ips: seq<Ip4>)
    ensures Decode(Encode(ips)) == Some(ips)
  {
    var body := Join(Items(ips), ',');
    var s := Encode(ips);
    assert s[1..|s| - 1] == body;
    if |ips| > 0 {
      assert body[0] == '"' by {
        if |ips| > 1 {
          assert body == Items(ips)[0] + [','] + Join(Items(ips)[1..], ',');
        }
      }
      ItemsHaveNoComma(ips);
      SplitJoin(Items(ips), ',');
      DecodeAllItems(ips);
    }
  }
}
