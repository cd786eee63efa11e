/** Option and Result, for `undefined` and for thrown errors. */
module Wrappers {
  datatype Option<+T> = None | Some(value: T) {
    function GetOr(default: T): T {
      match this
      case Some(v) => v
      case None => default
    }
  }

  datatype Result<+T, +E> = Success(value: T) | Failure(error: E)
}

/** The JavaScript values that document metadata (frontmatter) and computed
    results consist of, and the few operations of the language on them that
    the plugin uses: truthiness, `typeof v === 'object'`, `Object.entries`,
    own-property lookup and the stringifications. */
module Values {
  import opened Wrappers
  import opened Strings

  /** An object keeps its entries in `Object.entries` order. */
  datatype Value =
    | Undefined
    | Null
    | Bool(b: bool)
    | Num(n: real)
    | Str(s: string)
    | Arr(items: seq<Value>)
    | Obj(fields: seq<Field>)

  datatype Field = Field(key: string, val: Value)

  /** The values JavaScript treats as false in a condition. */
  predicate Falsy(v: Value) {
    v.Undefined? || v.Null? || v == Bool(false) || v == Num(0.0) || v == Str("")
  }

  /** `typeof v === 'object'`, which holds for null as well. */
  predicate IsObjectType(v: Value) {
    v.Null? || v.Arr? || v.Obj?
  }

  /** The keys of an object are pairwise distinct, as in any parsed frontmatter. */
  predicate UniqueKeys(fs: seq<Field>) {
    forall i, j :: 0 <= i < j < |fs| ==> fs[i].key != fs[j].key
  }

  /** `Object.entries(v ?? {})`: the fields of an object, the indexed items of
      an array or of a string, and nothing for any other value. */
  function Entries(v: Value): (r: seq<Field>)
    ensures forall i :: 0 <= i < |r| && IsObjectType(r[i].val) ==> r[i].val < v
    ensures v.Obj? ==> r == v.fields
    ensures v.Arr? ==> |r| == |v.items|
    ensures v.Str? ==> |r| == |v.s|
    ensures !(v.Obj? || v.Arr? || v.Str?) ==> r == []
  {
    match v
    case Obj(fs) =>
      assert forall i :: 0 <= i < |fs| ==> fs[i].val < v by {
        forall i | 0 <= i < |fs| ensures fs[i].val < v { assert fs[i] in fs; }
      }
      fs
    case Arr(items) =>
      assert forall i :: 0 <= i < |items| ==> items[i] < v by {
        forall i | 0 <= i < |items| ensures items[i] < v { assert items[i] in items; }
      }
      seq(|items|, i requires 0 <= i < |items| => Field(NatToString(i), items[i]))
    case Str(s) => seq(|s|, i requires 0 <= i < |s| => Field(NatToString(i), Str([s[i]])))
    case _ => []
  }

  /** The value of the first field named `key`, if any. */
  function FindField(fs: seq<Field>, key: string): (r: Option<Value>)
    ensures r.None? <==> forall i :: 0 <= i < |fs| ==> fs[i].key != key
    ensures r.Some? ==> exists i :: 0 <= i < |fs| && fs[i].key == key && fs[i].val == r.value
  {
    if |fs| == 0 then None
    else if fs[0].key == key then Some(fs[0].val)
    else
      var r := FindField(fs[1..], key);
      assert forall i :: 1 <= i < |fs| ==> fs[i] == fs[1..][i - 1];
      r
  }

  /** With distinct keys, the field at position `i` is the one found by its key. */
  lemma {:induction false} FindFieldUnique(fs: seq<Field>, i: nat)
    requires UniqueKeys(fs) && i < |fs|
    ensures FindField(fs, fs[i].key) == Some(fs[i].val)
  {
    if i > 0 {
      assert UniqueKeys(fs[1..]) by {
        forall a, b | 0 <= a < b < |fs[1..]| ensures fs[1..][a].key != fs[1..][b].key {
          assert fs[1..][a] == fs[a + 1] && fs[1..][b] == fs[b + 1];
        }
      }
      FindFieldUnique(fs[1..], i - 1);
      assert fs[1..][i - 1] == fs[i];
    }
  }

  /** The item of an array whose index is spelled `key`, searching from `i`. */
  function ArrayIndex(items: seq<Value>, key: string, i: nat): Option<Value>
    decreases |items| - i
  {
    if i >= |items| then None
    else if NatToString(i) == key then Some(items[i])
    else ArrayIndex(items, key, i + 1)
  }

  /** `v.hasOwnProperty(key) ? v[key] : undefined` for an object or an array
      (an array owns its indices and `length`); `None` when `v` does not own `key`. */
  function OwnProperty(v: Value, key: string): (r: Option<Value>)
    ensures !(v.Obj? || v.Arr?) ==> r.None?
    ensures v.Obj? ==> r == FindField(v.fields, key)
  {
    match v
    case Obj(fs) => FindField(fs, key)
    case Arr(items) => if key == "length" then Some(Num(|items| as real)) else ArrayIndex(items, key, 0)
    case _ => None
  }

  /** `v?.[key]` on a value of object type. */
  function Member(v: Value, key: string): Value {
    OwnProperty(v, key).GetOr(Undefined)
  }

  /** The helpers the plugin imports from modules whose source is not part of
      this model, and the language's dynamic evaluation; each is an arbitrary
      total function. */
  datatype Host = Host(
    stringifyObject: Value -> string,            // stringifyIfObj on a non-string
    toText: Value -> string,                     // value.toString() on a value that has it
    json: Value -> string,                       // JSON.stringify
    arrayType: seq<Value> -> string,             // checkArrayTypes
    invoke: (string, seq<Value>) -> Option<Value>, // compile `return <src>` and call it; None when it throws
    decorate: Value -> Value,                    // highlightText after addNewLineAtTheStartIfStartingWithMarkdown
    unescape: string -> string,                  // he.unescape
    escapeNewLines: string -> string,            // htmlEscapeNewLine
    restoreNewLines: string -> string            // getNewLinesFromHtmlEscaping
  )

  /** `stringifyIfObj(v)`: a string stays as it is. */
  function StringifyIfObj(h: Host, v: Value): (r: string)
    ensures v.Str? ==> r == v.s
  {
    if v.Str? then v.s else h.stringifyObject(v)
  }

  /** `v?.toString() ?? ''`: empty for undefined and null. */
  function TextOrEmpty(h: Host, v: Value): (r: string)
    ensures v.Undefined? || v.Null? ==> r == ""
    ensures v.Str? ==> r == v.s
  {
    match v
    case Undefined => ""
    case Null => ""
    case Str(s) => s
    case _ => h.toText(v)
  }

  /** `v.toString()`, which throws (None) for undefined and null. */
  function ToStringOrThrow(h: Host, v: Value): (r: Option<string>)
    ensures r.None? <==> v.Undefined? || v.Null?
    ensures r.Some? ==> r.value == TextOrEmpty(h, v)
  {
    if v.Undefined? || v.Null? then None else Some(TextOrEmpty(h, v))
  }
}
