/** Values shared by the cache, the store and the importers: property
    values and maps, node and relationship records, element identifiers,
    property normalisation and relationship-type sanitisation. */
module Graph {
  import opened Seqs

  /** A property value, one of the scalar kinds a property map can hold. */
  datatype Value = Str(s: string) | Int(i: int) | Bool(b: bool) | Null

  type Props = map<string, Value>

  /** Element identifiers are opaque strings. */
  type Id = string

  /** A cached or stored node: `{id, labels, properties}`. */
  datatype Node = Node(id: Id, labels: seq<string>, properties: Props)

  /** A cached or stored relationship: `{id, source, target, type, properties}`. */
  datatype Rel = Rel(id: Id, source: Id, target: Id, relType: string, properties: Props)

  /** Python truthiness of a property value. */
  predicate Truthy(v: Value) {
    match v
    case Str(s) => s != ""
    case Int(i) => i != 0
    case Bool(b) => b
    case Null => false
  }

  /** The importers keep a property when `v != "" and v is not None`. */
  predicate Kept(v: Value) {
    v != Str("") && v != Null
  }

  /** Property normalisation: drops every empty-string and null value.
      (KG_Manage/import_manager.py:40, 80, 147, 172) */
  function Normalize(p: Props): (q: Props)
    ensures q.Keys <= p.Keys
    ensures forall k :: k in p && Kept(p[k]) ==> k in q && q[k] == p[k]
    ensures forall k :: k in q ==> Kept(q[k])
  {
    map k | k in p && Kept(p[k]) :: p[k]
  }

  /** What the store keeps of a property map a `SET` writes: a null is
      never stored, so every key with a null value is dropped. */
  function Stored(p: Props): (q: Props)
    ensures q.Keys <= p.Keys
    ensures forall k :: k in p && p[k] != Null ==> k in q && q[k] == p[k]
    ensures forall k :: k in q ==> q[k] != Null
  {
    map k | k in p && p[k] != Null :: p[k]
  }

  /** A property map without nulls is stored unchanged. */
  lemma StoredWithoutNull(p: Props)
    requires forall k :: k in p ==> p[k] != Null
    ensures Stored(p) == p
  {
    assert Stored(p).Keys == p.Keys;
  }

  /** `props.get(k)`: the value, or None when the key is missing. */
  function Get(p: Props, k: string): Value {
    if k in p then p[k] else Null
  }

  /** `props.get(k, d)`: the default only when the key is missing. */
  function GetOr(p: Props, k: string, d: Value): Value {
    if k in p then p[k] else d
  }

  function Digit(d: nat): char
    requires d < 10
  {
    (48 + d) as char
  }

  /** The decimal numeral of `n`, as `str(n)` writes it. */
  function Decimal(n: nat): (s: string)
    ensures |s| >= 1
    ensures n >= 10 <==> |s| >= 2
    ensures forall i :: 0 <= i < |s| ==> '0' <= s[i] <= '9'
  {
    if n < 10 then [Digit(n)] else Decimal(n / 10) + [Digit(n % 10)]
  }

  /** Distinct numbers have distinct numerals, so a counter mints distinct
      identifiers. */
  lemma {:induction false} DecimalInjective(a: nat, b: nat)
    ensures Decimal(a) == Decimal(b) ==> a == b
  {
    if Decimal(a) == Decimal(b) && a >= 10 && b >= 10 {
      var s := Decimal(a);
      assert s[..|s| - 1] == Decimal(a / 10);
      assert Decimal(b)[..|s| - 1] == Decimal(b / 10);
      assert s[|s| - 1] == Digit(a % 10) && s[|s| - 1] == Digit(b % 10);
      DecimalInjective(a / 10, b / 10);
    }
  }

  /** `str(v)` for a property value. */
  function PyStr(v: Value): string {
    match v
    case Str(s) => s
    case Int(i) => if i < 0 then "-" + Decimal(-i) else Decimal(i)
    case Bool(b) => if b then "True" else "False"
    case Null => "None"
  }

  /** The k-th identifier the store mints. */
  function MintId(k: nat): (id: Id)
    ensures id != ""
  {
    Decimal(k)
  }

  lemma MintIdInjective(a: nat, b: nat)
    ensures MintId(a) == MintId(b) ==> a == b
  {
    DecimalInjective(a, b);
  }

  /** `s.replace(c, '')`. */
  function RemoveChar(s: string, c: char): (r: string)
    ensures forall x :: x in r ==> x in s && x != c
    ensures forall x :: x in s && x != c ==> x in r
  {
    if s == [] then []
    else RemoveChar(s[..|s| - 1], c) + (if s[|s| - 1] == c then [] else [s[|s| - 1]])
  }

  predicate IsQuote(c: char) {
    c == '`' || c == '\'' || c == '"'
  }

  /** The relationship type as the store receives it: the source chains
      three `replace` calls that drop backticks, single and double quotes.
      (KG_Manage/import_manager.py:99, KG_Manage/relationship_manager.py:45) */
  function SafeRelType(t: string): (r: string)
    ensures forall x :: x in r <==> x in t && !IsQuote(x)
  {
    RemoveChar(RemoveChar(RemoveChar(t, '`'), '\''), '"')
  }

  /** One pass that drops every quoting character. */
  function StripQuotes(t: string): string {
    Filter(t, (c: char) => !IsQuote(c))
  }

  lemma {:induction false} RemoveCharIsFilter(s: string, c: char)
    ensures RemoveChar(s, c) == Filter(s, (x: char) => x != c)
  {
    if s != [] {
      RemoveCharIsFilter(s[..|s| - 1], c);
    }
  }

  /** The three chained replacements amount to the single pass: the
      sanitised type is the input with exactly its quoting characters
      removed, the remaining characters in their order. */
  lemma SafeRelTypeIsStripQuotes(t: string)
    ensures SafeRelType(t) == StripQuotes(t)
  {
    var a := RemoveChar(t, '`');
    var b := RemoveChar(a, '\'');
    RemoveCharIsFilter(t, '`');
    RemoveCharIsFilter(a, '\'');
    RemoveCharIsFilter(b, '"');
    var p1 := (x: char) => x != '`';
    var p2 := (x: char) => x != '\'';
    var p3 := (x: char) => x != '"';
    var p12 := (x: char) => x != '`' && x != '\'';
    FilterFilter(t, p1, p2, p12);
    FilterFilter(t, p12, p3, (c: char) => !IsQuote(c));
  }

  /** A type name without quoting characters passes unchanged. */
  lemma SafeRelTypeKeepsCleanNames(t: string)
    requires forall i :: 0 <= i < |t| ==> !IsQuote(t[i])
    ensures SafeRelType(t) == t
  {
    SafeRelTypeIsStripQuotes(t);
    FilterAll(t, (c: char) => !IsQuote(c));
  }

  /** Sanitising twice is sanitising once. */
  lemma SafeRelTypeIdempotent(t: string)
    ensures SafeRelType(SafeRelType(t)) == SafeRelType(t)
  {
    var r := SafeRelType(t);
    assert forall i :: 0 <= i < |r| ==> !IsQuote(r[i]) by {
      forall i | 0 <= i < |r| ensures !IsQuote(r[i]) {
        assert r[i] in r;
      }
    }
    SafeRelTypeKeepsCleanNames(r);
  }
}
