/** Python values as the payload normaliser meets them, and `json_safe_value` (run_context.py). */
module Values {
  import opened Wrappers

  type CodePoint = c: int | 0 <= c < 0x110000

  /** A Python string: code points, lone surrogates included. */
  type Text = seq<CodePoint>

  datatype Float = Finite(value: real) | NonFinite(text: Text)

  /** A mapping key: an ordinary string, or anything no field table can name. */
  datatype Key = Field(name: string) | OtherKey(id: int)

  datatype Entry = Entry(key: Key, value: Value)

  datatype Value =
    | Null
    | Bool(b: bool)
    | Int(i: int)
    | Number(f: Float)
    | Str(t: Text)
    | Raw(bytes: seq<int>)
    | List(items: seq<Value>)
    | Tuple(items: seq<Value>)
    | Dict(entries: seq<Entry>)
    | Other(id: int)

  function Ascii(s: string): (t: Text)
    ensures |t| == |s| && forall i :: 0 <= i < |s| ==> t[i] == s[i] as int % 128
  {
    seq(|s|, i requires 0 <= i < |s| => s[i] as int % 128)
  }

  /** A key's text. */
  function TextOf(s: string): (t: Text) {
    seq(|s|, i requires 0 <= i < |s| => s[i] as int)
  }

  /** `mapping.get(name)`; Python keys are unique, so the first match is the only one. */
  function Lookup(entries: seq<Entry>, name: string): Option<Value> {
    if entries == [] then None
    else if entries[0].key == Field(name) then Some(entries[0].value)
    else Lookup(entries[1..], name)
  }

  lemma {:induction false} LookupConcat(a: seq<Entry>, b: seq<Entry>, name: string)
    ensures Lookup(a + b, name) == if Lookup(a, name).Some? then Lookup(a, name) else Lookup(b, name)
  {
    if a == [] {
      assert a + b == b;
    } else {
      assert (a + b)[1..] == a[1..] + b;
      LookupConcat(a[1..], b, name);
    }
  }

  predicate IsSurrogate(c: CodePoint) {
    0xD800 <= c <= 0xDFFF
  }

  function UpperHexDigit(n: int): CodePoint
    requires 0 <= n < 16
  {
    if n < 10 then 48 + n else 55 + n
  }

  /** `f"\\u{ord(c):04X}"`: six ASCII characters for one lone surrogate. */
  function Escape(c: CodePoint): (t: Text)
    requires IsSurrogate(c)
    ensures |t| == 6
  {
    [92, 117, UpperHexDigit(c / 4096), UpperHexDigit(c / 256 % 16), UpperHexDigit(c / 16 % 16), UpperHexDigit(c % 16)]
  }

  function UnicodeSafe(t: Text): Text {
    if t == [] then []
    else (if IsSurrogate(t[0]) then Escape(t[0]) else [t[0]]) + UnicodeSafe(t[1..])
  }

  function JsonSafe(v: Value): Value
    decreases v, 1
  {
    match v
    case Number(NonFinite(text)) => Str(text + Ascii(" (non-standard JSON number)"))
    case Dict(entries) => Dict(JsonSafeEntries(entries))
    case List(items) => List(JsonSafeItems(items))
    case Tuple(items) => List(JsonSafeItems(items))
    case Str(t) => Str(UnicodeSafe(t))
    case _ => v
  }

  function JsonSafeItems(items: seq<Value>): (r: seq<Value>)
    ensures |r| == |items| && forall i :: 0 <= i < |items| ==> r[i] == JsonSafe(items[i])
    decreases items, 0
  {
    if items == [] then [] else [JsonSafe(items[0])] + JsonSafeItems(items[1..])
  }

  function JsonSafeEntry(e: Entry): Entry
    decreases e, 2
  {
    match e case Entry(key, value) => Entry(key, JsonSafe(value))
  }

  function JsonSafeEntries(entries: seq<Entry>): (r: seq<Entry>)
    ensures |r| == |entries| && forall i :: 0 <= i < |entries| ==> r[i] == JsonSafeEntry(entries[i])
    decreases entries, 0
  {
    if entries == [] then [] else [JsonSafeEntry(entries[0])] + JsonSafeEntries(entries[1..])
  }

  lemma JsonSafeSingle(e: Entry)
    ensures JsonSafeEntries([e]) == [JsonSafeEntry(e)]
  {
    assert [e][1..] == [];
  }

  lemma JsonSafeConcat(a: seq<Entry>, b: seq<Entry>)
    ensures JsonSafeEntries(a + b) == JsonSafeEntries(a) + JsonSafeEntries(b)
  {
  }

  /** JSON as the normaliser emits it: lists only, finite numbers, string keys. */
  predicate Plain(v: Value)
    decreases v
  {
    match v
    case Number(f) => f.Finite?
    case List(items) => forall x :: x in items ==> Plain(x)
    case Dict(entries) => forall e :: e in entries ==> e.key.Field? && Plain(e.value)
    case Raw(_) => false
    case Tuple(_) => false
    case Other(_) => false
    case _ => true
  }

  /** No text anywhere in the value holds a lone surrogate. */
  predicate SurrogateFree(v: Value)
    decreases v
  {
    match v
    case Str(t) => forall c :: c in t ==> !IsSurrogate(c)
    case List(items) => forall x :: x in items ==> SurrogateFree(x)
    case Tuple(items) => forall x :: x in items ==> SurrogateFree(x)
    case Dict(entries) => forall e :: e in entries ==> SurrogateFree(e.value)
    case _ => true
  }

  lemma {:induction false} UnicodeSafeIdentity(t: Text)
    requires forall c :: c in t ==> !IsSurrogate(c)
    ensures UnicodeSafe(t) == t
  {
    if t != [] {
      UnicodeSafeIdentity(t[1..]);
    }
  }

  /** `json_safe_value` leaves a plain value without lone surrogates alone. */
  lemma {:induction false} JsonSafeIdentity(v: Value)
    requires Plain(v) && SurrogateFree(v)
    ensures JsonSafe(v) == v
    decreases v
  {
    match v
    case Str(t) => UnicodeSafeIdentity(t);
    case List(items) =>
      forall i | 0 <= i < |items| ensures JsonSafeItems(items)[i] == items[i] {
        assert items[i] in items;
        JsonSafeIdentity(items[i]);
      }
    case Dict(entries) =>
      forall i | 0 <= i < |entries| ensures JsonSafeEntries(entries)[i] == entries[i] {
        assert entries[i] in entries;
        JsonSafeIdentity(entries[i].value);
      }
    case _ =>
  }

  // ---- Stripping ----

  /** What `str.strip` drops. */
  predicate IsBlank(c: CodePoint) {
    || 9 <= c <= 13 || 28 <= c <= 32 || 0x2000 <= c <= 0x200A
    || c in {0x85, 0xA0, 0x1680, 0x2028, 0x2029, 0x202F, 0x205F, 0x3000}
  }

  function StripLeft(t: Text): Text {
    if t != [] && IsBlank(t[0]) then StripLeft(t[1..]) else t
  }

  function StripRight(t: Text): Text {
    if t != [] && IsBlank(t[|t| - 1]) then StripRight(t[..|t| - 1]) else t
  }

  function Strip(t: Text): Text {
    StripRight(StripLeft(t))
  }

  lemma {:induction false} StripLeftShort(t: Text)
    ensures |StripLeft(t)| <= |t| && forall c :: c in StripLeft(t) ==> c in t
  {
    if t != [] {
      StripLeftShort(t[1..]);
    }
  }

  lemma {:induction false} StripRightShort(t: Text)
    ensures |StripRight(t)| <= |t| && forall c :: c in StripRight(t) ==> c in t
  {
    if t != [] {
      StripRightShort(t[..|t| - 1]);
    }
  }

  lemma {:induction false} StripRightEnds(t: Text)
    ensures StripRight(t) != [] ==> !IsBlank(StripRight(t)[|StripRight(t)| - 1]) && StripRight(t)[0] == t[0]
  {
    if t != [] && IsBlank(t[|t| - 1]) {
      StripRightEnds(t[..|t| - 1]);
    }
  }

  lemma {:induction false} StripLeftStarts(t: Text)
    ensures StripLeft(t) != [] ==> !IsBlank(StripLeft(t)[0])
  {
    if t != [] && IsBlank(t[0]) {
      StripLeftStarts(t[1..]);
    }
  }

  lemma StripTwice(t: Text)
    ensures Strip(Strip(t)) == Strip(t)
  {
    StripLeftStarts(t);
    StripRightEnds(StripLeft(t));
  }
}
