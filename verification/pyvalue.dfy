/** Python values as the database client and the agent framework hand them
    to the tools: the scalars that matter here, lists, and dicts. A dict is
    kept as its ordered list of entries, because Python dicts iterate in
    insertion order and `repr` prints them in that order. */
module PyValue {

  datatype Option<+T> = None | Some(value: T)

  datatype Value =
    | PyNone
    | PyBool(b: bool)
    | PyInt(i: int)
    | PyStr(s: string)
    | PyList(elems: seq<Value>)
    | PyDict(items: seq<(string, Value)>)

  /** Python truthiness: `if v:` */
  predicate Truthy(v: Value) {
    match v
    case PyNone => false
    case PyBool(b) => b
    case PyInt(i) => i != 0
    case PyStr(s) => s != []
    case PyList(elems) => elems != []
    case PyDict(items) => items != []
  }

  // ---------------------------------------------------------------------
  // Dict entries
  // ---------------------------------------------------------------------

  /** The keys of a dict, in iteration order. */
  function Keys(items: seq<(string, Value)>): (ks: seq<string>)
    ensures |ks| == |items|
    ensures forall i :: 0 <= i < |items| ==> ks[i] == items[i].0
  {
    if items == [] then [] else Keys(items[..|items| - 1]) + [items[|items| - 1].0]
  }

  /** A real Python dict never holds a key twice. */
  predicate DistinctKeys(items: seq<(string, Value)>) {
    forall i, j :: 0 <= i < j < |items| ==> items[i].0 != items[j].0
  }

  /** The dict as a mapping; should a key repeat, its later entry wins. */
  function ToMap(items: seq<(string, Value)>): map<string, Value> {
    if items == [] then map[]
    else ToMap(items[..|items| - 1])[items[|items| - 1].0 := items[|items| - 1].1]
  }

  /** An entry appended at the end wins over any earlier one of its key. */
  lemma ToMapSnoc(items: seq<(string, Value)>, k: string, v: Value)
    ensures ToMap(items + [(k, v)]) == ToMap(items)[k := v]
  {
    assert (items + [(k, v)])[..|items|] == items;
  }

  /** The keys of the mapping are exactly the keys of the entries. */
  lemma {:induction false} ToMapKeys(items: seq<(string, Value)>, k: string)
    ensures k in ToMap(items) <==> exists i :: 0 <= i < |items| && items[i].0 == k
  {
    if items != [] {
      var n := |items| - 1;
      ToMapKeys(items[..n], k);
      if k in ToMap(items[..n]) {
        var i :| 0 <= i < n && items[..n][i].0 == k;
        assert items[i].0 == k;
      }
      if i :| 0 <= i < n && items[i].0 == k {
        assert items[..n][i].0 == k;
      }
    }
  }

  /** `k in d` */
  predicate Has(items: seq<(string, Value)>, k: string) {
    k in ToMap(items)
  }

  /** `d.get(k)` */
  function Get(items: seq<(string, Value)>, k: string): Option<Value> {
    var m := ToMap(items);
    if k in m then Some(m[k]) else None
  }

  /** `d.get(k, default)` */
  function GetOr(items: seq<(string, Value)>, k: string, default: Value): Value {
    var m := ToMap(items);
    if k in m then m[k] else default
  }

  /** `d[k] = v`: an existing key keeps its position and takes the new value,
      a new key is appended at the end. */
  function SetItem(items: seq<(string, Value)>, k: string, v: Value): (d: seq<(string, Value)>)
    ensures ToMap(d) == ToMap(items)[k := v]
    ensures DistinctKeys(items) ==> DistinctKeys(d)
  {
    if k in ToMap(items) then
      ReplacedMap(items, k, v);
      Replaced(items, k, v)
    else
      var d := items + [(k, v)];
      assert d[..|d| - 1] == items;
      ToMapKeys(items, k);
      d
  }

  /** Assigning a key that is already present keeps the dict's key order; a new
      key goes last. */
  lemma SetItemKeys(items: seq<(string, Value)>, k: string, v: Value)
    ensures Keys(SetItem(items, k, v)) == if k in ToMap(items) then Keys(items) else Keys(items) + [k]
  {
    var d := SetItem(items, k, v);
    if k !in ToMap(items) {
      assert d[..|d| - 1] == items;
    }
  }

  /** Every entry with key `k` takes the value `v`, in place. */
  function Replaced(items: seq<(string, Value)>, k: string, v: Value): (d: seq<(string, Value)>)
    ensures |d| == |items|
    ensures forall i :: 0 <= i < |d| ==> d[i].0 == items[i].0
    ensures forall i :: 0 <= i < |d| ==> d[i].1 == if items[i].0 == k then v else items[i].1
  {
    seq(|items|, i requires 0 <= i < |items| => if items[i].0 == k then (k, v) else items[i])
  }

  lemma {:induction false} ReplacedMap(items: seq<(string, Value)>, k: string, v: Value)
    requires k in ToMap(items)
    ensures ToMap(Replaced(items, k, v)) == ToMap(items)[k := v]
  {
    var n := |items| - 1;
    var d := Replaced(items, k, v);
    assert d[..n] == Replaced(items[..n], k, v);
    if items[n].0 == k {
      if k in ToMap(items[..n]) {
        ReplacedMap(items[..n], k, v);
      } else {
        ToMapKeys(items[..n], k);
        assert d[..n] == items[..n];
      }
    } else {
      ReplacedMap(items[..n], k, v);
    }
  }

  // ---------------------------------------------------------------------
  // str() and repr()
  // ---------------------------------------------------------------------

  /** `str(n)` for a natural number: decimal digits, no leading zero. */
  function NatToString(n: nat): (s: string)
    ensures |s| >= 1 && (s[0] == '0' ==> n == 0 && |s| == 1)
    ensures forall i :: 0 <= i < |s| ==> '0' <= s[i] <= '9'
    ensures DigitsValue(s) == n
  {
    if n < 10 then [DigitChar(n)]
    else
      var s := NatToString(n / 10) + [DigitChar(n % 10)];
      assert s[..|s| - 1] == NatToString(n / 10);
      s
  }

  function DigitChar(d: nat): (c: char)
    requires d < 10
    ensures '0' <= c <= '9' && c as int - '0' as int == d
  {
    "0123456789"[d]
  }

  /** The number a string of decimal digits denotes. */
  function DigitsValue(s: string): nat
    requires forall i :: 0 <= i < |s| ==> '0' <= s[i] <= '9'
  {
    if s == [] then 0
    else DigitsValue(s[..|s| - 1]) * 10 + (s[|s| - 1] as int - '0' as int)
  }

  /** `str(i)` for any int: decimal digits denoting `i`, after a minus sign
      when `i` is negative. */
  function IntToString(i: int): (s: string)
    ensures i >= 0 ==> (forall k :: 0 <= k < |s| ==> '0' <= s[k] <= '9') && DigitsValue(s) == i
    ensures i < 0 ==>
              && |s| >= 2 && s[0] == '-'
              && (forall k :: 0 <= k < |s[1..]| ==> '0' <= s[1..][k] <= '9')
              && DigitsValue(s[1..]) == -i
  {
    if i < 0 then
      var s := "-" + NatToString(-i);
      assert s[1..] == NatToString(-i);
      s
    else NatToString(i)
  }

  function HexDigit(d: nat): char
    requires d < 16
  {
    "0123456789abcdef"[d]
  }

  /** The number a lower-case hexadecimal digit stands for. */
  function HexValue(c: char): (d: nat)
    ensures d < 16
  {
    if '0' <= c <= '9' then c as int - '0' as int
    else if 'a' <= c <= 'f' then c as int - 'a' as int + 10
    else 0
  }

  lemma HexDigitValue(d: nat)
    requires d < 16
    ensures HexValue(HexDigit(d)) == d
  {
  }

  /** The quote `repr` puts around a string: a double quote only when the
      string holds a single quote and no double quote. */
  function QuoteFor(s: string): (q: char)
    ensures q == '\'' || q == '"'
  {
    if '\'' in s && '"' !in s then '"' else '\''
  }

  /** One character as `repr` writes it inside quotes `q`. */
  function EscapeChar(c: char, q: char): string {
    if c == q || c == '\\' then ['\\', c]
    else if c == '\t' then "\\t"
    else if c == '\n' then "\\n"
    else if c == '\r' then "\\r"
    else if c as int < 0x20 || c as int == 0x7f then
      ['\\', 'x', HexDigit(c as int / 16), HexDigit(c as int % 16)]
    else [c]
  }

  function EscapeString(s: string, q: char): string {
    if s == [] then "" else EscapeChar(s[0], q) + EscapeString(s[1..], q)
  }

  /** `repr(s)` for a string. */
  function StrRepr(s: string): string {
    var q := QuoteFor(s);
    [q] + EscapeString(s, q) + [q]
  }

  /** Reads a string literal's inside back: the inverse of the escaping
      `repr` does. */
  function Unescape(t: string): string
    decreases |t|
  {
    if t == [] then []
    else if t[0] == '\\' && |t| >= 2 then
      if t[1] == 't' then "\t" + Unescape(t[2..])
      else if t[1] == 'n' then "\n" + Unescape(t[2..])
      else if t[1] == 'r' then "\r" + Unescape(t[2..])
      else if t[1] == 'x' && |t| >= 4 then
        [(HexValue(t[2]) * 16 + HexValue(t[3])) as char] + Unescape(t[4..])
      else [t[1]] + Unescape(t[2..])
    else [t[0]] + Unescape(t[1..])
  }

  lemma EscapeCharUnescape(c: char, q: char, rest: string)
    requires q == '\'' || q == '"'
    ensures Unescape(EscapeChar(c, q) + rest) == [c] + Unescape(rest)
  {
    var t := EscapeChar(c, q) + rest;
    if c == q || c == '\\' || c == '\t' || c == '\n' || c == '\r' {
      assert t[2..] == rest;
    } else if c as int < 0x20 || c as int == 0x7f {
      assert t[4..] == rest;
      HexDigitValue(c as int / 16);
      HexDigitValue(c as int % 16);
    } else {
      assert t[1..] == rest;
    }
  }

  lemma {:induction false} EscapeStringUnescape(s: string, q: char)
    requires q == '\'' || q == '"'
    ensures Unescape(EscapeString(s, q)) == s
  {
    if s != [] {
      EscapeStringUnescape(s[1..], q);
      EscapeCharUnescape(s[0], q, EscapeString(s[1..], q));
    }
  }

  /** `repr` of a string is the string between two equal quotes, escaped so
      that reading the inside back gives the string again. */
  lemma StrReprRoundTrip(s: string)
    ensures var r := StrRepr(s);
            && |r| >= 2
            && r[0] == r[|r| - 1]
            && (r[0] == '\'' || r[0] == '"')
            && Unescape(r[1..|r| - 1]) == s
  {
    var q := QuoteFor(s);
    var r := StrRepr(s);
    assert r[1..|r| - 1] == EscapeString(s, q);
    EscapeStringUnescape(s, q);
  }

  /** `sep.join(parts)` */
  function Join(sep: string, parts: seq<string>): string {
    if parts == [] then ""
    else if |parts| == 1 then parts[0]
    else Join(sep, parts[..|parts| - 1]) + sep + parts[|parts| - 1]
  }

  /** `repr(v)`; lists and dicts print their elements with `repr`. */
  function Repr(v: Value): string
    decreases v
  {
    match v
    case PyNone => "None"
    case PyBool(b) => if b then "True" else "False"
    case PyInt(i) => IntToString(i)
    case PyStr(s) => StrRepr(s)
    case PyList(elems) =>
      "[" + Join(", ", seq(|elems|, k requires 0 <= k < |elems| => Repr(elems[k]))) + "]"
    case PyDict(items) =>
      "{" + Join(", ", seq(|items|, k requires 0 <= k < |items| =>
                             StrRepr(items[k].0) + ": " + Repr(items[k].1))) + "}"
  }

  /** `str(v)`: a string is itself; an integer is its decimal digits,
      after a minus sign when negative, and they denote its value;
      everything else is its `repr`. */
  function Str(v: Value): (s: string)
    ensures v.PyStr? ==> s == v.s
    ensures v.PyInt? && v.i >= 0 ==>
              && (forall k :: 0 <= k < |s| ==> '0' <= s[k] <= '9')
              && DigitsValue(s) == v.i
    ensures v.PyInt? && v.i < 0 ==>
              && |s| >= 2 && s[0] == '-'
              && (forall k :: 0 <= k < |s[1..]| ==> '0' <= s[1..][k] <= '9')
              && DigitsValue(s[1..]) == -v.i
    ensures !v.PyStr? ==> s == Repr(v)
  {
    match v
    case PyStr(s) => s
    case PyInt(i) => IntToString(i)
    case _ => Repr(v)
  }
}
