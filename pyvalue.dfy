/**
 * The Python values the sync pipeline handles: the result of decoding a JSON
 * document (dict keys are always text, each once) plus the Python helpers it relies on
 * (`str()`, truthiness, `dict.get`, `or`).
 */
module Py {
  import opened Base
  import Grouping

  datatype PyValue =
    | PNone
    | PBool(b: bool)
    | PInt(i: int)
    | PStr(s: string)
    | PList(items: seq<PyValue>)
    | PDict(entries: seq<(string, PyValue)>)

  /** `bool(v)`. */
  predicate Truthy(v: PyValue) {
    match v
    case PNone => false
    case PBool(b) => b
    case PInt(i) => i != 0
    case PStr(s) => s != []
    case PList(items) => items != []
    case PDict(entries) => entries != []
  }

  /** `a or b`: the first operand when it is truthy, otherwise the second. */
  function Or(a: PyValue, b: PyValue): (r: PyValue)
    ensures Truthy(r) <==> Truthy(a) || Truthy(b)
    ensures r == a || r == b
  {
    if Truthy(a) then a else b
  }

  /** `d.get(key)` on a decoded JSON object; a key that is not text is never present. */
  function Get(v: PyValue, key: PyValue): (r: PyValue)
    ensures !v.PDict? ==> r == PNone
  {
    if v.PDict? && key.PStr? then Lookup(v.entries, key.s) else PNone
  }

  /** The value bound to `key` (the last binding wins, as when a JSON object is decoded). */
  function Lookup(entries: seq<(string, PyValue)>, key: string): (r: PyValue)
    ensures r != PNone ==> exists i :: 0 <= i < |entries| && entries[i] == (key, r)
    ensures (forall i :: 0 <= i < |entries| ==> entries[i].0 != key) ==> r == PNone
    ensures (exists i :: 0 <= i < |entries| && entries[i].0 == key) ==>
      exists i :: 0 <= i < |entries| && entries[i] == (key, r) && forall j :: i < j < |entries| ==> entries[j].0 != key
  {
    if entries == [] then PNone
    else if entries[|entries| - 1].0 == key then entries[|entries| - 1].1
    else Lookup(entries[..|entries| - 1], key)
  }

  function EntryKey(e: (string, PyValue)): string { e.0 }

  /** The keys of a decoded JSON object, each once, in the order first seen. */
  function DictKeys(entries: seq<(string, PyValue)>): (ks: seq<string>)
    ensures Distinct(ks)
  {
    Grouping.GroupKeys(entries, EntryKey, |entries|)
  }

  /**
   * The dict a JSON object decodes to: a repeated key keeps the place where it
   * first appears and takes the value of its last binding.
   */
  function DictEntries(entries: seq<(string, PyValue)>): (r: seq<(string, PyValue)>)
    ensures forall e :: e in r ==> e in entries
  {
    var ks := DictKeys(entries);
    DictEntriesFrom(entries, ks);
    seq(|ks|, i requires 0 <= i < |ks| => (ks[i], Lookup(entries, ks[i])))
  }

  lemma DictEntriesFrom(entries: seq<(string, PyValue)>, ks: seq<string>)
    requires ks == DictKeys(entries)
    ensures forall i :: 0 <= i < |ks| ==> (ks[i], Lookup(entries, ks[i])) in entries
  {
    forall i | 0 <= i < |ks| ensures (ks[i], Lookup(entries, ks[i])) in entries {
      var j := Grouping.GroupKeyWitness(entries, EntryKey, |entries|, i);
      assert entries[j].0 == ks[i];
    }
  }

  /**
   * The decoded dict holds each key of the object exactly once, bound to the
   * value `d.get` returns, and nothing else.
   */
  lemma DictEntriesExact(entries: seq<(string, PyValue)>)
    ensures forall i, j :: 0 <= i < j < |DictEntries(entries)| ==> DictEntries(entries)[i].0 != DictEntries(entries)[j].0
    ensures forall i :: 0 <= i < |DictEntries(entries)| ==>
      DictEntries(entries)[i].1 == Lookup(entries, DictEntries(entries)[i].0)
    ensures forall i :: 0 <= i < |entries| ==> (entries[i].0, Lookup(entries, entries[i].0)) in DictEntries(entries)
  {
    var ks := DictKeys(entries);
    var r := DictEntries(entries);
    forall i | 0 <= i < |entries| ensures (entries[i].0, Lookup(entries, entries[i].0)) in r {
      assert EntryKey(entries[i]) in ks;
      var t :| 0 <= t < |ks| && ks[t] == entries[i].0;
      assert r[t] == (entries[i].0, Lookup(entries, entries[i].0));
    }
  }

  /** `d.get(key)` with a text key. */
  function GetStr(v: PyValue, key: string): PyValue
  {
    Get(v, PStr(key))
  }

  /** `isinstance(v, dict)`. */
  predicate IsDict(v: PyValue) { v.PDict? }

  /** `repr()` of text, without the escaping of quotes and control characters. */
  function ReprStr(s: string): string { "'" + s + "'" }

  /** `repr()` of a value nested in a container. */
  function Repr(v: PyValue): (r: string)
    decreases v, 2
  {
    match v
    case PStr(s) => ReprStr(s)
    case _ => Str(v)
  }

  /** `str(v)`; containers render as their `repr`. */
  function Str(v: PyValue): (r: string)
    decreases v, 1
  {
    match v
    case PNone => "None"
    case PBool(b) => if b then "True" else "False"
    case PInt(i) => IntToString(i)
    case PStr(s) => s
    case PList(items) => "[" + ReprList(v, items) + "]"
    case PDict(entries) => "{" + ReprEntries(v, DictEntries(entries)) + "}"
  }

  function ReprList(ghost parent: PyValue, items: seq<PyValue>): string
    requires parent.PList? && forall i :: 0 <= i < |items| ==> items[i] in parent.items
    decreases parent, 0, |items|
  {
    if items == [] then ""
    else
      assert items[0] in parent.items;
      if |items| == 1 then Repr(items[0]) else Repr(items[0]) + ", " + ReprList(parent, items[1..])
  }

  function ReprEntries(ghost parent: PyValue, entries: seq<(string, PyValue)>): string
    requires parent.PDict? && forall i :: 0 <= i < |entries| ==> entries[i] in parent.entries
    decreases parent, 0, |entries|
  {
    if entries == [] then ""
    else
      var (k, v) := entries[0];
      assert entries[0] in parent.entries;
      var e := ReprStr(k) + ": " + Repr(v);
      if |entries| == 1 then e else e + ", " + ReprEntries(parent, entries[1..])
  }
}
