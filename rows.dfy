/** Row converters of the connection registry: a database row or a parameter
    object is a JavaScript object, that is its own keys in insertion order,
    each key once. `acc[k] = v` replaces the value of a key already present in
    its place and appends a new key at the end. JavaScript lists integer-like
    keys first; no column name is one, and `toCamel` neither makes nor
    unmakes one, so insertion order is the order here. */
module Rows {

  import opened Results

  /** The column values that occur: SQLite integers, JavaScript booleans,
      strings, and NULL for a parameter left unbound. */
  datatype Value = VInt(i: int) | VBool(b: bool) | VStr(s: string) | VNull

  predicate DistinctKeys(r: seq<(string, Value)>)
  {
    forall i, j | 0 <= i < j < |r| :: r[i].0 != r[j].0
  }

  type Record = r: seq<(string, Value)> | DistinctKeys(r) witness []

  function KeySet(r: seq<(string, Value)>): set<string>
  {
    set p | p in r :: p.0
  }

  /** `row[key]`, with `None` for `undefined`. */
  function Get(r: Record, key: string): Option<Value>
  {
    if r == [] then None
    else if r[0].0 == key then Some(r[0].1)
    else Get(r[1..], key)
  }

  /** Where `key` sits among the keys, if it is one. */
  function KeyIndex(r: Record, key: string): (o: Option<nat>)
    ensures o.Some? ==> o.value < |r| && r[o.value].0 == key
    ensures o.None? ==> forall i | 0 <= i < |r| :: r[i].0 != key
  {
    if r == [] then None
    else if r[0].0 == key then Some(0)
    else match KeyIndex(r[1..], key)
      case None => None
      case Some(k) => Some(k + 1)
  }

  /** `acc[key] = v`. */
  function Put(r: Record, key: string, v: Value): (r': Record)
    ensures forall i | 0 <= i < |r| && r[i].0 == key :: r' == r[i := (key, v)]
    ensures (forall i | 0 <= i < |r| :: r[i].0 != key) ==> r' == r + [(key, v)]
  {
    match KeyIndex(r, key)
    case Some(i) =>
      var r' := r[i := (key, v)];
      assert forall j | 0 <= j < |r| :: r'[j].0 == r[j].0;
      r'
    case None => r + [(key, v)]
  }

  /** Whether or not the key was there, it is there afterwards, beside the others. */
  lemma PutKeys(r: Record, key: string, v: Value)
    ensures KeySet(Put(r, key, v)) == KeySet(r) + {key}
  {
    var r' := Put(r, key, v);
    match KeyIndex(r, key)
    case Some(i) =>
      forall k | k in KeySet(r) ensures k in KeySet(r') {
        var p :| p in r && p.0 == k;
        var j :| 0 <= j < |r| && r[j] == p;
        assert r'[j].0 == k && r'[j] in r';
      }
      assert r'[i] in r';
    case None =>
      assert r'[|r|] in r';
  }

  /** The row that `query.get` returns: the first, in table order, that
      satisfies the WHERE clause. */
  function FirstIndex<T>(rows: seq<T>, where: T -> bool): (r: Option<nat>)
    ensures r.Some? ==> r.value < |rows| && where(rows[r.value])
    ensures r.Some? ==> forall j | 0 <= j < r.value :: !where(rows[j])
    ensures r.None? ==> forall j | 0 <= j < |rows| :: !where(rows[j])
  {
    if rows == [] then None
    else if where(rows[0]) then Some(0)
    else match FirstIndex(rows[1..], where)
      case None => None
      case Some(k) => Some(k + 1)
  }

  /** Two tables whose rows satisfy two WHERE clauses alike give the same first row. */
  lemma FirstIndexAlike<S, T>(xs: seq<S>, p: S -> bool, ys: seq<T>, q: T -> bool)
    requires |xs| == |ys|
    requires forall i | 0 <= i < |xs| :: p(xs[i]) == q(ys[i])
    ensures FirstIndex(xs, p) == FirstIndex(ys, q)
  {
    var a, b := FirstIndex(xs, p), FirstIndex(ys, q);
    if a.Some? && b.Some? {
      assert !(a.value < b.value) && !(b.value < a.value);
    }
  }

  /** A row added at the end is found only when no earlier row matches. */
  lemma {:induction false} FirstIndexAppend<T>(rows: seq<T>, row: T, where: T -> bool)
    ensures FirstIndex(rows + [row], where)
         == if FirstIndex(rows, where).Some? then FirstIndex(rows, where)
            else if where(row) then Some(|rows|) else None
  {
    if rows != [] {
      assert (rows + [row])[1..] == rows[1..] + [row];
      FirstIndexAppend(rows[1..], row, where);
    }
  }

  // ----- snakeToCamel -----

  predicate IsLower(c: char) { 'a' <= c <= 'z' }

  function ToUpper(c: char): (u: char)
    requires IsLower(c)
    ensures 'A' <= u <= 'Z'
  {
    (c as int - 32) as char
  }

  /** `str.replace(/_([a-z])/g, (_, letter) => letter.toUpperCase())`: the
      pattern is sought from left to right and matches do not overlap. */
  function ToCamel(s: string): string
  {
    if |s| >= 2 && s[0] == '_' && IsLower(s[1]) then [ToUpper(s[1])] + ToCamel(s[2..])
    else if s == [] then []
    else [s[0]] + ToCamel(s[1..])
  }

  /** Does `s` contain a `_` followed by a lower-case letter? */
  predicate HasSnakePair(s: string)
  {
    exists i | 0 <= i < |s| - 1 :: s[i] == '_' && IsLower(s[i + 1])
  }

  function SnakeToCamel(snake: Record): (camel: Record)
    decreases |snake|
  {
    if snake == [] then []
    else
      var last := snake[|snake| - 1];
      Put(SnakeToCamel(snake[..|snake| - 1]), ToCamel(last.0), last.1)
  }

  // ----- intsToBools / boolsToInts -----

  /** `row[current] === 1` for a listed column, the value itself otherwise. */
  function IntToBool(key: string, v: Value, booleanColumns: seq<string>): Value
  {
    if key in booleanColumns then VBool(v == VInt(1)) else v
  }

  function BoolToInt(v: Value): Value
  {
    if v.VBool? then VInt(if v.b then 1 else 0) else v
  }

  function IntsToBools(row: Record, booleanColumns: seq<string>): (r: Record)
    ensures |r| == |row|
    ensures forall i | 0 <= i < |row| :: r[i] == (row[i].0, IntToBool(row[i].0, row[i].1, booleanColumns))
    decreases |row|
  {
    if row == [] then []
    else
      var n := |row| - 1;
      var init := row[..n];
      var acc := IntsToBools(init, booleanColumns);
      assert forall i | 0 <= i < n :: acc[i].0 == init[i].0 != row[n].0;
      Put(acc, row[n].0, IntToBool(row[n].0, row[n].1, booleanColumns))
  }

  function BoolsToInts(row: Record): (r: Record)
    ensures |r| == |row|
    ensures forall i | 0 <= i < |row| :: r[i] == (row[i].0, BoolToInt(row[i].1))
    decreases |row|
  {
    if row == [] then []
    else
      var n := |row| - 1;
      var init := row[..n];
      var acc := BoolsToInts(init);
      assert forall i | 0 <= i < n :: acc[i].0 == init[i].0 != row[n].0;
      Put(acc, row[n].0, BoolToInt(row[n].1))
  }

  // ----- properties of toCamel -----

  /** A snake_case name: lower-case words joined by `_`. */
  predicate IsWord(w: string)
  {
    w != [] && forall i | 0 <= i < |w| :: IsLower(w[i])
  }

  function SnakeName(words: seq<string>): string
    requires words != []
  {
    words[0] + SnakeTail(words[1..])
  }

  function SnakeTail(words: seq<string>): string
  {
    if words == [] then [] else "_" + words[0] + SnakeTail(words[1..])
  }

  function Capitalised(w: string): string
    requires IsWord(w)
  {
    [ToUpper(w[0])] + w[1..]
  }

  function CamelName(words: seq<string>): string
    requires words != [] && forall i | 0 <= i < |words| :: IsWord(words[i])
  {
    words[0] + CamelTail(words[1..])
  }

  function CamelTail(words: seq<string>): string
    requires forall i | 0 <= i < |words| :: IsWord(words[i])
  {
    if words == [] then [] else Capitalised(words[0]) + CamelTail(words[1..])
  }

  /** A prefix without `_` is copied as it is. */
  lemma {:induction false} ToCamelWordPrefix(w: string, s: string)
    requires forall i | 0 <= i < |w| :: w[i] != '_'
    ensures ToCamel(w + s) == w + ToCamel(s)
    decreases |w|
  {
    if w == [] {
      assert w + s == s;
    } else {
      var ws := w + s;
      assert ws[0] == w[0] && ws[1..] == w[1..] + s;
      assert ToCamel(ws) == [ws[0]] + ToCamel(ws[1..]);
      ToCamelWordPrefix(w[1..], s);
      assert w == [w[0]] + w[1..];
    }
  }

  lemma {:induction false} ToCamelOfSnakeTail(words: seq<string>)
    requires forall i | 0 <= i < |words| :: IsWord(words[i])
    ensures ToCamel(SnakeTail(words)) == CamelTail(words)
    decreases |words|
  {
    if words != [] {
      var w, rest := words[0], SnakeTail(words[1..]);
      var s := "_" + w + rest;
      assert s[0] == '_' && s[1] == w[0];
      assert s[2..] == w[1..] + rest;
      ToCamelWordPrefix(w[1..], rest);
      ToCamelOfSnakeTail(words[1..]);
    }
  }

  /** `toCamel` turns a snake_case name into the camelCase name of the same words. */
  lemma ToCamelOfSnakeName(words: seq<string>)
    requires words != [] && forall i | 0 <= i < |words| :: IsWord(words[i])
    ensures ToCamel(SnakeName(words)) == CamelName(words)
  {
    ToCamelWordPrefix(words[0], SnakeTail(words[1..]));
    ToCamelOfSnakeTail(words[1..]);
  }

  /** A name written out: `snake` spells the words with `_`, `camel` in camelCase. */
  lemma NameToCamel(words: seq<string>, snake: string, camel: string)
    requires words != [] && forall i | 0 <= i < |words| :: IsWord(words[i])
    requires snake == SnakeName(words) && camel == CamelName(words)
    ensures ToCamel(snake) == camel
  {
    ToCamelOfSnakeName(words);
  }

  /** A two-key record whose keys convert to different keys is renamed key by key. */
  lemma TwoKeysRenamed(k1: string, v1: Value, k2: string, v2: Value)
    requires k1 != k2 && ToCamel(k1) != ToCamel(k2)
    ensures SnakeToCamel([(k1, v1), (k2, v2)]) == [(ToCamel(k1), v1), (ToCamel(k2), v2)]
  {
    var input: Record := [(k1, v1), (k2, v2)];
    SnakeToCamelRenames(input);
  }

  lemma HelloWorldKey()
    ensures ToCamel("hello_world") == "helloWorld"
  {
    NameToCamel(["hello", "world"], "hello_world", "helloWorld");
  }

  lemma ANumberKey()
    ensures ToCamel("a_number") == "aNumber"
  {
    NameToCamel(["a", "number"], "a_number", "aNumber");
  }

  /** The record of the converter's test: both keys renamed, values and order kept. */
  lemma HelloWorld()
    ensures SnakeToCamel([("hello_world", VStr("Hello World")), ("a_number", VInt(123))])
         == [("helloWorld", VStr("Hello World")), ("aNumber", VInt(123))]
  {
    HelloWorldKey();
    ANumberKey();
    TwoKeysRenamed("hello_world", VStr("Hello World"), "a_number", VInt(123));
  }

  /** A key without a `_`+lower-case pair is left as it is. */
  lemma {:induction false} ToCamelFixesPlainKeys(s: string)
    requires !HasSnakePair(s)
    ensures ToCamel(s) == s
    decreases |s|
  {
    if s != [] {
      ToCamelFixesPlainKeys(s[1..]);
    }
  }

  /** The first character of `ToCamel(s)` is lower-case only when it is the first character of `s`. */
  lemma {:induction false} ToCamelHead(s: string)
    requires s != []
    ensures ToCamel(s) != []
    ensures IsLower(ToCamel(s)[0]) ==> ToCamel(s)[0] == s[0]
  {
    if |s| >= 2 && s[0] == '_' && IsLower(s[1]) {
      assert ToCamel(s)[0] == ToUpper(s[1]);
    }
  }

  /** Every `_`+lower-case pair is gone from the result: the replacement is complete. */
  lemma {:induction false} ToCamelRemovesAllPairs(s: string)
    ensures !HasSnakePair(ToCamel(s))
    decreases |s|
  {
    var r := ToCamel(s);
    if |s| >= 2 && s[0] == '_' && IsLower(s[1]) {
      ToCamelRemovesAllPairs(s[2..]);
      NoPairAfterUpper(ToUpper(s[1]), ToCamel(s[2..]));
    } else if s != [] {
      var rest := ToCamel(s[1..]);
      ToCamelRemovesAllPairs(s[1..]);
      assert r == [s[0]] + rest;
      if s[0] == '_' && rest != [] {
        ToCamelHead(s[1..]);
        assert !IsLower(rest[0]);
      }
    }
  }

  lemma NoPairAfterUpper(c: char, rest: string)
    requires c != '_' && !HasSnakePair(rest)
    ensures !HasSnakePair([c] + rest)
  {
  }

  /** So converting twice is converting once. */
  lemma ToCamelIdempotent(s: string)
    ensures ToCamel(ToCamel(s)) == ToCamel(s)
  {
    ToCamelRemovesAllPairs(s);
    ToCamelFixesPlainKeys(ToCamel(s));
  }

  // ----- properties of snakeToCamel -----

  predicate CamelInjective(r: Record)
  {
    forall i, j | 0 <= i < j < |r| :: ToCamel(r[i].0) != ToCamel(r[j].0)
  }

  /** When no two keys become the same key, `snakeToCamel` renames each key in
      place and keeps every value. */
  lemma {:induction false} SnakeToCamelRenames(r: Record)
    requires CamelInjective(r)
    ensures |SnakeToCamel(r)| == |r|
    ensures forall i | 0 <= i < |r| :: SnakeToCamel(r)[i] == (ToCamel(r[i].0), r[i].1)
    decreases |r|
  {
    if r != [] {
      var n := |r| - 1;
      var init := r[..n];
      SnakeToCamelRenames(init);
      var acc := SnakeToCamel(init);
    }
  }

  /** Whatever the collisions, the keys that come out are the converted keys that went in. */
  lemma {:induction false} SnakeToCamelKeys(r: Record)
    ensures KeySet(SnakeToCamel(r)) == set k | k in KeySet(r) :: ToCamel(k)
    decreases |r|
  {
    if r != [] {
      var n := |r| - 1;
      SnakeToCamelKeys(r[..n]);
      PutKeys(SnakeToCamel(r[..n]), ToCamel(r[n].0), r[n].1);
      assert KeySet(r) == KeySet(r[..n]) + {r[n].0} by {
        assert forall i | 0 <= i < n :: r[..n][i] == r[i];
      }
    }
  }

  // ----- properties of intsToBools / boolsToInts -----

  /** Both converters keep the key set. */
  lemma ConvertersKeepKeys(row: Record, booleanColumns: seq<string>)
    ensures KeySet(IntsToBools(row, booleanColumns)) == KeySet(row)
    ensures KeySet(BoolsToInts(row)) == KeySet(row)
  {
    SameKeys(IntsToBools(row, booleanColumns), row);
    SameKeys(BoolsToInts(row), row);
  }

  lemma SameKeys(a: seq<(string, Value)>, b: seq<(string, Value)>)
    requires |a| == |b| && forall i | 0 <= i < |a| :: a[i].0 == b[i].0
    ensures KeySet(a) == KeySet(b)
  {
    forall k | k in KeySet(a) ensures k in KeySet(b) {
      var p :| p in a && p.0 == k;
      var i :| 0 <= i < |a| && a[i] == p;
      assert b[i] in b;
    }
    forall k | k in KeySet(b) ensures k in KeySet(a) {
      var p :| p in b && p.0 == k;
      var i :| 0 <= i < |b| && b[i] == p;
      assert a[i] in a;
    }
  }

  /** A boolean column written with `boolsToInts` is read back by `intsToBools`. */
  lemma BoolColumnRoundTrip(row: Record, column: string, b: bool)
    requires Get(row, column) == Some(VBool(b))
    ensures Get(IntsToBools(BoolsToInts(row), [column]), column) == Some(VBool(b))
  {
    GetFound(row, column);
    var i :| 0 <= i < |row| && row[i] == (column, VBool(b));
    var ints := BoolsToInts(row);
    assert ints[i] == (column, VInt(if b then 1 else 0));
    var back := IntsToBools(ints, [column]);
    assert back[i] == (column, IntToBool(column, ints[i].1, [column]));
    GetAt(back, i);
  }

  /** When the boolean-valued keys are exactly the listed columns, the round trip
      gives back the row. */
  lemma RowRoundTrip(row: Record, booleanColumns: seq<string>)
    requires forall i | 0 <= i < |row| :: row[i].1.VBool? <==> row[i].0 in booleanColumns
    ensures IntsToBools(BoolsToInts(row), booleanColumns) == row
  {
    var back := IntsToBools(BoolsToInts(row), booleanColumns);
    assert forall i | 0 <= i < |row| :: back[i] == row[i];
  }

  /** The value of a key is the one stored beside it. */
  lemma {:induction false} GetAt(r: Record, i: nat)
    requires i < |r|
    ensures Get(r, r[i].0) == Some(r[i].1)
  {
    if i > 0 {
      assert r[0].0 != r[i].0;
      assert r[1..][i - 1] == r[i];
      GetAt(r[1..], i - 1);
    }
  }

  /** A key has a value exactly when it is one of the keys, and then it is stored beside it. */
  lemma {:induction false} GetFound(r: Record, key: string)
    ensures Get(r, key).Some? <==> key in KeySet(r)
    ensures Get(r, key).Some? ==> (key, Get(r, key).value) in r
  {
    if r != [] {
      assert KeySet(r) == {r[0].0} + KeySet(r[1..]);
      if r[0].0 != key {
        GetFound(r[1..], key);
      }
    }
  }
}
