/**
  Camera parameters: a map from names to texts, kept sorted by name, that is flattened into one
  text and read back.
 */
module CameraMap {

  datatype Entry = Entry(key: string, value: string)

  /* ---- The sorted vector of entries ---- */

  /** The order in which the names are kept. */
  predicate Less(a: string, b: string) {
    if b == [] then false
    else if a == [] then true
    else a[0] < b[0] || (a[0] == b[0] && Less(a[1..], b[1..]))
  }

  lemma {:induction false} LessTotal(a: string, b: string)
    ensures Less(a, b) || a == b || Less(b, a)
    ensures !(Less(a, b) && Less(b, a)) && !Less(a, a)
  {
    if a != [] { LessTotal(a[1..], a[1..]); }
    if a != [] && b != [] {
      LessTotal(a[1..], b[1..]);
      assert a == [a[0]] + a[1..] && b == [b[0]] + b[1..];
    }
  }

  /** Dictionary order: up to the first place where they differ the names agree, and there the first
      ends or holds the smaller character. */
  lemma {:induction false} LessIff(a: string, b: string)
    ensures Less(a, b) <==> exists k :: 0 <= k <= |a| && k < |b| && a[..k] == b[..k] && (k == |a| || a[k] < b[k])
  {
    if a == [] {
      assert b != [] ==> a[..0] == b[..0];
    } else if b != [] {
      LessIff(a[1..], b[1..]);
      if Less(a, b) {
        if a[0] < b[0] {
          assert a[..0] == b[..0];
        } else {
          var x, y := a[1..], b[1..];
          var j :| 0 <= j <= |x| && j < |y| && x[..j] == y[..j] && (j == |x| || x[j] < y[j]);
          assert a[..j + 1] == [a[0]] + x[..j] && b[..j + 1] == [b[0]] + y[..j];
        }
      }
      forall k | 0 <= k <= |a| && k < |b| && a[..k] == b[..k] && (k == |a| || a[k] < b[k]) ensures Less(a, b) {
        if k > 0 {
          assert a[0] == a[..k][0] == b[..k][0];
          assert a[1..][..k - 1] == a[..k][1..] && b[1..][..k - 1] == b[..k][1..];
        }
      }
    }
  }

  lemma {:induction false} LessTransitive(a: string, b: string, c: string)
    requires Less(a, b) && Less(b, c)
    ensures Less(a, c)
  {
    if a != [] && a[0] == b[0] == c[0] { LessTransitive(a[1..], b[1..], c[1..]); }
  }

  ghost predicate Sorted(m: seq<Entry>) {
    forall i, j :: 0 <= i < j < |m| ==> Less(m[i].key, m[j].key)
  }

  /** Adding replaces the entry with the same name, if there is one. */
  function Add(m: seq<Entry>, k: string, v: string): seq<Entry> {
    if m == [] then [Entry(k, v)]
    else if m[0].key == k then [Entry(k, v)] + m[1..]
    else if Less(k, m[0].key) then [Entry(k, v)] + m
    else [m[0]] + Add(m[1..], k, v)
  }

  function Remove(m: seq<Entry>, k: string): seq<Entry> {
    if m == [] then [] else if m[0].key == k then m[1..] else [m[0]] + Remove(m[1..], k)
  }

  /** The text stored under a name; the empty text if there is none. */
  function ValueFor(m: seq<Entry>, k: string): string {
    if m == [] then "" else if m[0].key == k then m[0].value else ValueFor(m[1..], k)
  }

  lemma {:induction false} AddKeepsSorted(m: seq<Entry>, k: string, v: string)
    requires Sorted(m)
    ensures Sorted(Add(m, k, v))
    ensures forall e :: e in Add(m, k, v) ==> e == Entry(k, v) || e in m
  {
    if m != [] && m[0].key != k {
      LessTotal(k, m[0].key);
      if Less(k, m[0].key) {
        forall j | 0 < j < |m| ensures Less(k, m[j].key) { LessTransitive(k, m[0].key, m[j].key); }
      } else {
        AddKeepsSorted(m[1..], k, v);
        var t := Add(m[1..], k, v);
        forall j | 0 <= j < |t| ensures Less(m[0].key, t[j].key) {
          assert t[j] in t;
        }
      }
    }
  }

  lemma {:induction false} RemoveKeepsSorted(m: seq<Entry>, k: string)
    requires Sorted(m)
    ensures Sorted(Remove(m, k))
    ensures forall e :: e in Remove(m, k) ==> e in m && e.key != k
  {
    if m != [] {
      if m[0].key == k {
        forall e | e in m[1..] ensures e.key != k { LessTotal(k, k); }
      } else {
        RemoveKeepsSorted(m[1..], k);
        var t := Remove(m[1..], k);
        forall j | 0 <= j < |t| ensures Less(m[0].key, t[j].key) {
          assert t[j] in t;
        }
      }
    }
  }

  /** Reading after adding. */
  lemma {:induction false} AddIsRead(m: seq<Entry>, k: string, v: string, q: string)
    ensures ValueFor(Add(m, k, v), q) == if q == k then v else ValueFor(m, q)
  {
    if m != [] && m[0].key != k && !Less(k, m[0].key) { AddIsRead(m[1..], k, v, q); }
  }

  lemma {:induction false} MissingIsEmpty(m: seq<Entry>, k: string)
    requires forall e :: e in m ==> e.key != k
    ensures ValueFor(m, k) == ""
  {
    if m != [] {
      assert m[0] in m;
      MissingIsEmpty(m[1..], k);
    }
  }

  /** Reading after removing. */
  lemma {:induction false} RemoveIsRead(m: seq<Entry>, k: string, q: string)
    requires Sorted(m)
    ensures ValueFor(Remove(m, k), q) == if q == k then "" else ValueFor(m, q)
  {
    RemoveKeepsSorted(m, k);
    if q == k {
      MissingIsEmpty(Remove(m, k), k);
    } else if m != [] && m[0].key != k {
      RemoveIsRead(m[1..], k, q);
    }
  }

  /** A name beyond all others goes to the end. */
  lemma {:induction false} AddAtEnd(m: seq<Entry>, k: string, v: string)
    requires forall i :: 0 <= i < |m| ==> Less(m[i].key, k)
    ensures Add(m, k, v) == m + [Entry(k, v)]
  {
    if m != [] {
      LessTotal(m[0].key, k);
      AddAtEnd(m[1..], k, v);
    }
  }

  /* ---- Flattening ---- */

  function Item(e: Entry): string { e.key + "=" + e.value }

  function Flatten(m: seq<Entry>): string {
    if m == [] then "" else if |m| == 1 then Item(m[0]) else Item(m[0]) + ";" + Flatten(m[1..])
  }

  /** The first place that holds `c`, or the end. */
  function Find(s: string, c: char): (j: nat)
    ensures j <= |s| && (j < |s| ==> s[j] == c) && c !in s[..j]
  {
    if s == "" || s[0] == c then 0
    else
      var j := Find(s[1..], c);
      assert s[..j + 1] == [s[0]] + s[1..][..j];
      j + 1
  }

  /** The entries written in a text, in order: names end at the first '=', texts at the next ';'. */
  function Parse(s: string): seq<Entry>
    decreases |s|
  {
    var b := Find(s, '=');
    if b == |s| then []
    else
      var t := s[b + 1..];
      var e := Find(t, ';');
      [Entry(s[..b], t[..e])] + if e == |t| then [] else Parse(t[e + 1..])
  }

  function AddAll(m: seq<Entry>, es: seq<Entry>): seq<Entry>
    decreases |es|
  {
    if es == [] then m else AddAll(Add(m, es[0].key, es[0].value), es[1..])
  }

  function Unflatten(s: string): seq<Entry> { AddAll([], Parse(s)) }

  /** No name holds the sign that ends names, no text the sign that ends texts. */
  ghost predicate Clean(m: seq<Entry>) {
    forall e :: e in m ==> '=' !in e.key && ';' !in e.value
  }

  lemma {:induction false} ParseIsClean(s: string)
    ensures Clean(Parse(s))
    decreases |s|
  {
    var b := Find(s, '=');
    if b < |s| {
      var t := s[b + 1..];
      var e := Find(t, ';');
      var rest := if e == |t| then [] else Parse(t[e + 1..]);
      if e < |t| { ParseIsClean(t[e + 1..]); }
      ParseStep(s, b, t, e);
      CleanJoins(Entry(s[..b], t[..e]), rest);
    }
  }

  lemma CleanJoins(e: Entry, m: seq<Entry>)
    requires '=' !in e.key && ';' !in e.value && Clean(m)
    ensures Clean([e] + m)
  {}

  lemma {:induction false} AddAllKeeps(m: seq<Entry>, es: seq<Entry>)
    requires Sorted(m) && Clean(m) && Clean(es)
    ensures Sorted(AddAll(m, es)) && Clean(AddAll(m, es))
    decreases |es|
  {
    if es != [] {
      assert es[0] in es;
      AddKeepsSorted(m, es[0].key, es[0].value);
      AddAllKeeps(Add(m, es[0].key, es[0].value), es[1..]);
    }
  }

  lemma {:induction false} FindStops(k: string, c: char, rest: string)
    requires c !in k && (rest == "" || rest[0] == c)
    ensures Find(k + rest, c) == |k|
  {
    if k == "" {
      assert k + rest == rest;
    } else {
      assert (k + rest)[1..] == k[1..] + rest;
      FindStops(k[1..], c, rest);
    }
  }

  lemma ParseStep(s: string, b: nat, t: string, e: nat)
    requires b < |s| && b == Find(s, '=') && t == s[b + 1..] && e == Find(t, ';')
    ensures Parse(s) == [Entry(s[..b], t[..e])] + if e == |t| then [] else Parse(t[e + 1..])
  {}

  lemma Split(k: string, c: string, rest: string, s: string)
    requires |c| == 1 && s == k + (c + rest)
    ensures |s| == |k| + 1 + |rest| && s[..|k|] == k && s[|k| + 1..] == rest
  {}

  lemma ItemParts(e: Entry, rest: string)
    ensures Item(e) + rest == e.key + ("=" + (e.value + rest))
  {
    assert (e.key + "=" + e.value) + rest == (e.key + "=") + (e.value + rest);
    assert (e.key + "=") + (e.value + rest) == e.key + ("=" + (e.value + rest));
  }

  lemma ParseLast(e: Entry)
    requires '=' !in e.key && ';' !in e.value
    ensures Parse(Item(e)) == [e]
  {
    var s := Item(e);
    ItemParts(e, "");
    assert s + "" == s && e.value + "" == e.value;
    Split(e.key, "=", e.value, s);
    FindStops(e.key, '=', "=" + e.value);
    FindStops(e.value, ';', "");
    assert e.value[..|e.value|] == e.value;
    ParseStep(s, |e.key|, e.value, |e.value|);
  }

  lemma ParseItem(e: Entry, rest: string, s: string)
    requires '=' !in e.key && ';' !in e.value && s == Item(e) + (";" + rest)
    ensures Parse(s) == [e] + Parse(rest)
  {
    var t := e.value + (";" + rest);
    ItemParts(e, ";" + rest);
    Split(e.key, "=", t, s);
    FindStops(e.key, '=', "=" + t);
    FindStops(e.value, ';', ";" + rest);
    Split(e.value, ";", rest, t);
    ParseStep(s, |e.key|, t, |e.value|);
  }

  /** What reading does with any text: an entry ends at the next ';' or at the end, and what holds no
      '=' is left out. */
  lemma ReadingRule(k: string, v: string, rest: string)
    requires '=' !in k && ';' !in v
    ensures Parse(k + "=" + v + (";" + rest)) == [Entry(k, v)] + Parse(rest)
    ensures Parse(k + "=" + v) == [Entry(k, v)]
    ensures Parse(k) == []
  {
    ParseItem(Entry(k, v), rest, k + "=" + v + (";" + rest));
    ParseLast(Entry(k, v));
    FindStops(k, '=', "");
    assert k + "" == k;
  }

  lemma {:induction false} ParseFlatten(m: seq<Entry>)
    requires Clean(m)
    ensures Parse(Flatten(m)) == m
  {
    if m != [] {
      assert m[0] in m;
      if |m| == 1 {
        ParseLast(m[0]);
      } else {
        FlattenFirst(m);
        ParseItem(m[0], Flatten(m[1..]), Flatten(m));
        ParseFlatten(m[1..]);
      }
    }
  }

  lemma FlattenFirst(m: seq<Entry>)
    requires |m| > 1
    ensures Flatten(m) == Item(m[0]) + (";" + Flatten(m[1..]))
  {
    var i, f := Item(m[0]), Flatten(m[1..]);
    assert i + ";" + f == i + (";" + f);
  }

  lemma {:induction false} AddAllSorted(m: seq<Entry>, i: nat)
    requires Sorted(m) && i <= |m|
    ensures AddAll(m[..i], m[i..]) == m
    decreases |m| - i
  {
    if i < |m| {
      AddAtEnd(m[..i], m[i].key, m[i].value);
      assert m[..i] + [m[i]] == m[..i + 1] && m[i..][1..] == m[i + 1..];
      AddAllSorted(m, i + 1);
    } else {
      assert m[..i] == m && m[i..] == [];
    }
  }

  /** Flattening and reading back gives the same parameters. */
  lemma RoundTrip(m: seq<Entry>)
    requires Sorted(m) && Clean(m)
    ensures Unflatten(Flatten(m)) == m
  {
    ParseFlatten(m);
    AddAllSorted(m, 0);
    assert m[..0] == [] && m[0..] == m;
  }

  /** What one turn of the flattening loop appends. */
  lemma FlattenTail(m: seq<Entry>, i: nat, done: string)
    requires i < |m| && done + Flatten(m[i..]) == Flatten(m)
    ensures var more := done + m[i].key + "=" + m[i].value;
      (if i + 1 == |m| then more else more + ";") + Flatten(m[i + 1..]) == Flatten(m)
  {
    var e, f := m[i], Flatten(m[i + 1..]);
    assert m[i..][1..] == m[i + 1..];
    Join(done, e.key, "=", e.value);
    if i + 1 < |m| {
      FlattenFirst(m[i..]);
      Join(done, Item(e), ";", f);
    } else {
      assert f == "" && Flatten(m[i..]) == Item(e);
    }
  }

  lemma Join(a: string, b: string, c: string, d: string)
    ensures a + b + c + d == a + (b + c + d) == a + (b + (c + d))
  {}

  lemma AddAllFirst(m: seq<Entry>, e: Entry, es: seq<Entry>)
    ensures AddAll(m, [e] + es) == AddAll(Add(m, e.key, e.value), es)
  {
    assert ([e] + es)[1..] == es;
  }

  /* ---- The class ---- */

  const HDR_KEY := "hdr-need-1x"

  predicate Settable(text: string) { '=' !in text && ';' !in text }

  /** What setting a parameter does to the entries; `qcom` says whether the build adds the
      default for HDR. */
  function SetIn(qcom: bool, m: seq<Entry>, k: string, v: string): seq<Entry> {
    if !Settable(k) || !Settable(v) then m
    else Add(if qcom && ValueFor(m, HDR_KEY) == "" then Add(m, HDR_KEY, "false") else m, k, v)
  }

  lemma SetInKeeps(qcom: bool, m: seq<Entry>, k: string, v: string)
    requires Sorted(m) && Clean(m)
    ensures Sorted(SetIn(qcom, m, k, v)) && Clean(SetIn(qcom, m, k, v))
  {
    if Settable(k) && Settable(v) {
      AddKeeps(m, HDR_KEY, "false");
      AddKeeps(m, k, v);
      AddKeeps(Add(m, HDR_KEY, "false"), k, v);
    }
  }

  lemma AddKeeps(m: seq<Entry>, k: string, v: string)
    requires Sorted(m) && Clean(m) && Settable(k) && Settable(v)
    ensures Sorted(Add(m, k, v)) && Clean(Add(m, k, v))
  {
    AddKeepsSorted(m, k, v);
  }

  /** A name or a text with '=' or ';' in it is refused, and then nothing changes. */
  lemma SetRefused(qcom: bool, m: seq<Entry>, k: string, v: string)
    requires '=' in k || ';' in k || '=' in v || ';' in v
    ensures SetIn(qcom, m, k, v) == m
  {}

  /** Reading any name after setting one. */
  lemma SetInIsRead(qcom: bool, m: seq<Entry>, k: string, v: string, q: string)
    requires '=' !in k && ';' !in k && '=' !in v && ';' !in v
    ensures ValueFor(SetIn(qcom, m, k, v), q)
            == if q == k then v
               else if qcom && q == "hdr-need-1x" && ValueFor(m, q) == "" then "false"
               else ValueFor(m, q)
  {
    AddIsRead(m, HDR_KEY, "false", q);
    AddIsRead(m, k, v, q);
    AddIsRead(Add(m, HDR_KEY, "false"), k, v, q);
  }

  datatype Op = SetOp(key: string, value: string) | RemoveOp(key: string) | UnflattenOp(params: string)

  function Apply(qcom: bool, m: seq<Entry>, op: Op): seq<Entry> {
    match op
    case SetOp(k, v) => SetIn(qcom, m, k, v)
    case RemoveOp(k) => Remove(m, k)
    case UnflattenOp(s) => Unflatten(s)
  }

  /** The entries after any sequence of operations on fresh parameters. */
  function After(qcom: bool, ops: seq<Op>): seq<Entry> {
    if ops == [] then [] else Apply(qcom, After(qcom, ops[..|ops| - 1]), ops[|ops| - 1])
  }

  lemma {:induction false} AfterKeeps(qcom: bool, ops: seq<Op>)
    ensures Sorted(After(qcom, ops)) && Clean(After(qcom, ops))
  {
    if ops != [] {
      var m := After(qcom, ops[..|ops| - 1]);
      AfterKeeps(qcom, ops[..|ops| - 1]);
      match ops[|ops| - 1]
      case SetOp(k, v) => SetInKeeps(qcom, m, k, v);
      case RemoveOp(k) => RemoveKeepsSorted(m, k);
      case UnflattenOp(s) =>
        ParseIsClean(s);
        AddAllKeeps([], Parse(s));
    }
  }

  /** Whatever was set, removed or read before, flattening and reading back loses nothing. */
  lemma AnyHistoryRoundTrips(qcom: bool, ops: seq<Op>)
    ensures Unflatten(Flatten(After(qcom, ops))) == After(qcom, ops)
  {
    AfterKeeps(qcom, ops);
    RoundTrip(After(qcom, ops));
  }

  class Parameters {
    var entries: seq<Entry>
    const qcom: bool

    ghost predicate Valid()
      reads this
    {
      Sorted(entries) && Clean(entries)
    }

    constructor (q: bool)
      ensures Valid() && entries == [] && qcom == q
    {
      entries, qcom := [], q;
    }

    /** The text that reads back as these parameters. */
    method FlattenAll() returns (flattened: string)
      requires Valid()
      ensures flattened == Flatten(entries)
      ensures Unflatten(flattened) == entries
    {
      flattened := "";
      var i := 0;
      assert entries[0..] == entries;
      while i < |entries|
        invariant 0 <= i <= |entries|
        invariant flattened + Flatten(entries[i..]) == Flatten(entries)
      {
        FlattenTail(entries, i, flattened);
        flattened := flattened + entries[i].key;
        flattened := flattened + "=";
        flattened := flattened + entries[i].value;
        if i != |entries| - 1 {
          flattened := flattened + ";";
        }
        i := i + 1;
      }
      RoundTrip(entries);
    }

    method UnflattenText(params: string)
      modifies this
      ensures Valid() && entries == Unflatten(params)
    {
      ParseIsClean(params);
      AddAllKeeps([], Parse(params));
      var a := params;
      entries := [];
      while true
        invariant AddAll(entries, Parse(a)) == Unflatten(params)
        decreases |a|
      {
        var b := Find(a, '=');
        if b == |a| {
          break;
        }
        var k := a[..b];
        a := a[b + 1..];
        b := Find(a, ';');
        AddAllFirst(entries, Entry(k, a[..b]), if b == |a| then [] else Parse(a[b + 1..]));
        entries := Add(entries, k, a[..b]);
        if b == |a| {
          break;
        }
        a := a[b + 1..];
      }
    }

    method Set(key: string, value: string)
      requires Valid()
      modifies this
      ensures Valid() && entries == SetIn(qcom, old(entries), key, value)
    {
      SetInKeeps(qcom, entries, key, value);
      if !Settable(key) || !Settable(value) {
        return;
      }
      if qcom {
        var hdr := Get(HDR_KEY);
        if hdr == "" {
          entries := Add(entries, HDR_KEY, "false");
        }
      }
      entries := Add(entries, key, value);
    }

    /** The text under a name; a missing and an empty text are the same to callers. */
    method Get(key: string) returns (value: string)
      ensures value == ValueFor(entries, key)
    {
      value := ValueFor(entries, key);
    }

    method RemoveKey(key: string)
      requires Valid()
      modifies this
      ensures Valid() && entries == Remove(old(entries), key)
    {
      RemoveKeepsSorted(entries, key);
      entries := Remove(entries, key);
    }
  }
}
