/**
 * PHP values as the package sees them: scalars, ordered arrays with integer
 * or string keys, and Eloquent model objects; the PHP errors the package can
 * raise; and the array built-ins and Laravel `Arr` helpers it calls
 * (`Arr::get`, `array_filter`, `array_merge`, `empty`, `is_numeric`).
 */
module Php {
  import opened PhpString

  datatype Option<+T> = None | Some(value: T)

  /** The PHP errors and exceptions that can escape from the modelled code. */
  datatype Fault =
    | TypeError(message: string)
    | ClassNotFound(name: string)
    | CallOnNull(name: string)
    | UndefinedMethod(name: string)
    | RuntimeException(message: string)
    | UndefinedIndex(name: string)  // an undefined-index notice, which Laravel's error handler throws
    | UninitializedOffset(offset: int)  // reading past the end of a string, thrown the same way
    | DivisionByZero  // integer division by zero

  datatype Result<+T> = Success(value: T) | Failure(error: Fault) {
    predicate IsFailure() { Failure? }
    function PropagateFailure<U>(): Result<U>
      requires Failure?
    {
      Failure(error)
    }
    function Extract(): T
      requires Success?
    {
      value
    }
  }

  // ---------------------------------------------------------------------------
  // Values
  // ---------------------------------------------------------------------------

  datatype Key = IntKey(i: int) | StrKey(s: string)

  /** A PHP value. Floats and resources do not occur in the modelled code paths. */
  datatype Value =
    | Null
    | Bool(b: bool)
    | Int(i: int)
    | Str(s: string)
    | Arr(entries: seq<Pair>)
    | Obj(model: Model)

  /** One entry of a PHP array; the array keeps its entries in insertion order. */
  datatype Pair = Pair(key: Key, val: Value)

  /** A relation method declared on a model class, and the class it returns. */
  datatype RelationDecl = RelationDecl(
    target: string,
    pivots: bool  // a many-to-many relation, the only kind with `newExistingPivot`
  )

  /**
   * What a model class declares: its table (`getTable()`), an optional
   * `searchableAs()` override, its `$mappingProperties`, `getPerPage()`,
   * whether it uses the `Huntable` trait (has `getMappingProperties`), and its
   * relation methods by name.
   */
  datatype ClassInfo = ClassInfo(
    table: string,
    searchableAs: Option<Value>,
    mappingProperties: Value,
    perPage: int,
    huntable: bool,
    relations: map<string, RelationDecl>
  )

  /** The classes the application defines, by fully qualified name without a leading `\`. */
  type Registry = map<string, ClassInfo>

  /**
   * An Eloquent model instance handed to the package: its class (`get_class`),
   * what that class declares, its key (`getKey()`), its `toArray()` data and
   * its `documentScore` property.
   */
  datatype Model = Model(cls: string, info: ClassInfo, key: Value, data: seq<Pair>, documentScore: Value)

  /** PHP truthiness: null, false, 0, "", "0" and the empty array are falsy. */
  predicate Truthy(v: Value) {
    match v
    case Null => false
    case Bool(b) => b
    case Int(i) => i != 0
    case Str(s) => s != "" && s != "0"
    case Arr(es) => |es| > 0
    case Obj(_) => true
  }

  /** `is_numeric($v)`. */
  predicate IsNumeric(v: Value) {
    match v
    case Int(_) => true
    case Str(s) => IsNumericString(s)
    case _ => false
  }

  /** The key PHP stores for a string offset: integer-like strings become integer keys. */
  function KeyOf(s: string): Key {
    if IsIntegerKey(s) then IntKey(IntegerKeyValue(s)) else StrKey(s)
  }

  lemma KeyOfWord(s: string)
    requires |s| > 0 && !IsDigit(s[0]) && s[0] != '-'
    ensures KeyOf(s) == StrKey(s)
  {
  }

  /** `$array[$v]` used as an offset. */
  function OffsetKey(v: Value): Result<Key> {
    match v
    case Null => Success(StrKey(""))
    case Bool(b) => Success(IntKey(if b then 1 else 0))
    case Int(i) => Success(IntKey(i))
    case Str(s) => Success(KeyOf(s))
    case Arr(_) => Failure(TypeError("Illegal offset type"))
    case Obj(_) => Failure(TypeError("Illegal offset type"))
  }

  /**
   * `(string)$v`, as string interpolation and `preg_replace` do it. Arrays
   * and objects do not convert silently: the array conversion notice is an
   * exception under Laravel's error handler, and a model's JSON form is not
   * modelled.
   */
  function ToPhpString(v: Value): (r: Result<string>)
    ensures v.Str? ==> r == Success(v.s)
    ensures r.Failure? <==> v.Arr? || v.Obj?
  {
    match v
    case Null => Success("")
    case Bool(b) => Success(if b then "1" else "")
    case Int(i) => Success(IntToString(i))
    case Str(s) => Success(s)
    case Arr(_) => Failure(TypeError("Array to string conversion"))
    case Obj(_) => Failure(TypeError("Object could not be converted to string"))
  }

  // ---------------------------------------------------------------------------
  // Arrays
  // ---------------------------------------------------------------------------

  /** No key occurs twice: what every PHP array satisfies. */
  predicate Distinct(es: seq<Pair>) {
    forall i, j :: 0 <= i < j < |es| ==> es[i].key != es[j].key
  }

  /** A value all of whose arrays, at every depth, have distinct keys. */
  predicate WellFormed(v: Value) {
    match v
    case Arr(es) => Distinct(es) && forall i :: 0 <= i < |es| ==> WellFormed(es[i].val)
    case _ => true
  }

  /** `$array[$k]` when the key exists. */
  function Lookup(es: seq<Pair>, k: Key): (r: Option<Value>)
    ensures r.Some? <==> exists i :: 0 <= i < |es| && es[i].key == k
    ensures r.Some? ==> Pair(k, r.value) in es
  {
    if |es| == 0 then None
    else if es[0].key == k then Some(es[0].val)
    else
      var r := Lookup(es[1..], k);
      assert (exists i :: 0 <= i < |es[1..]| && es[1..][i].key == k) ==> exists i :: 0 <= i < |es| && es[i].key == k by {
        if exists i :: 0 <= i < |es[1..]| && es[1..][i].key == k {
          var i :| 0 <= i < |es[1..]| && es[1..][i].key == k;
          assert es[i + 1].key == k;
        }
      }
      r
  }

  /** `array_key_exists($k, $array)`. */
  predicate HasKey(es: seq<Pair>, k: Key) {
    Lookup(es, k).Some?
  }

  /** In an array with distinct keys, the entry at `i` is what the lookup finds. */
  lemma {:induction false} LookupAt(es: seq<Pair>, i: nat)
    requires Distinct(es) && i < |es|
    ensures Lookup(es, es[i].key) == Some(es[i].val)
  {
    if i > 0 {
      assert es[0].key != es[i].key;
      assert Distinct(es[1..]) by {
        forall a, b | 0 <= a < b < |es[1..]| ensures es[1..][a].key != es[1..][b].key {
          assert es[1..][a] == es[a + 1] && es[1..][b] == es[b + 1];
        }
      }
      LookupAt(es[1..], i - 1);
    }
  }

  /** Appending an entry leaves the keys already present untouched. */
  lemma {:induction false} LookupAppend(es: seq<Pair>, p: Pair, k: Key)
    ensures Lookup(es + [p], k) ==
      if HasKey(es, k) then Lookup(es, k) else if p.key == k then Some(p.val) else None
  {
    if |es| > 0 {
      assert (es + [p])[1..] == es[1..] + [p];
      LookupAppend(es[1..], p, k);
    }
  }

  /** `$array[$k] = $v`: overwrite in place if the key exists, otherwise append. */
  function Set(es: seq<Pair>, k: Key, v: Value): (r: seq<Pair>)
    ensures |r| == if HasKey(es, k) then |es| else |es| + 1
    ensures forall p :: p in r ==> p in es || p == Pair(k, v)
  {
    if |es| == 0 then [Pair(k, v)]
    else if es[0].key == k then [Pair(k, v)] + es[1..]
    else [es[0]] + Set(es[1..], k, v)
  }

  lemma {:induction false} LookupSet(es: seq<Pair>, k: Key, v: Value, k': Key)
    ensures Lookup(Set(es, k, v), k') == if k' == k then Some(v) else Lookup(es, k')
  {
    if |es| > 0 && es[0].key != k {
      LookupSet(es[1..], k, v, k');
    }
  }

  /** Setting keeps keys distinct. */
  lemma {:induction false} SetDistinct(es: seq<Pair>, k: Key, v: Value)
    requires Distinct(es)
    ensures Distinct(Set(es, k, v))
  {
    if |es| > 0 {
      assert Distinct(es[1..]) by {
        forall a, b | 0 <= a < b < |es[1..]| ensures es[1..][a].key != es[1..][b].key {
          assert es[1..][a] == es[a + 1] && es[1..][b] == es[b + 1];
        }
      }
      if es[0].key != k {
        SetDistinct(es[1..], k, v);
        var r := Set(es, k, v);
        forall j | 0 < j < |r| ensures r[0].key != r[j].key {
          SetKeys(es[1..], k, v, j - 1);
          assert r[j] == Set(es[1..], k, v)[j - 1];
          if r[j].key != k {
            var m :| 0 <= m < |es[1..]| && es[1..][m].key == r[j].key;
            assert es[m + 1].key == r[j].key;
          }
        }
      } else {
        var r := Set(es, k, v);
        forall a, b | 0 <= a < b < |r| ensures r[a].key != r[b].key {
          if a > 0 {
            assert r[a] == es[a] && r[b] == es[b];
          } else {
            assert r[b] == es[b];
          }
        }
      }
    }
  }

  /** Every key of `Set(es, k, v)` is `k` or a key of `es`. */
  lemma {:induction false} SetKeys(es: seq<Pair>, k: Key, v: Value, j: nat)
    requires j < |Set(es, k, v)|
    ensures Set(es, k, v)[j].key == k || exists m :: 0 <= m < |es| && es[m].key == Set(es, k, v)[j].key
  {
    if |es| > 0 && es[0].key != k && j > 0 {
      SetKeys(es[1..], k, v, j - 1);
      var r := Set(es[1..], k, v);
      if r[j - 1].key != k {
        var m :| 0 <= m < |es[1..]| && es[1..][m].key == r[j - 1].key;
        assert es[m + 1].key == r[j - 1].key;
      }
    } else if |es| > 0 && es[0].key == k && j > 0 {
      assert Set(es, k, v)[j] == es[j];
    }
  }

  /** Setting a key the array does not have appends it. */
  lemma {:induction false} SetAbsent(es: seq<Pair>, k: Key, v: Value)
    requires !HasKey(es, k)
    ensures Set(es, k, v) == es + [Pair(k, v)]
  {
    if |es| > 0 {
      assert !HasKey(es[1..], k) by {
        forall i | 0 <= i < |es[1..]| ensures es[1..][i].key != k {
          assert es[1..][i] == es[i + 1];
        }
      }
      SetAbsent(es[1..], k, v);
      assert [es[0]] + (es[1..] + [Pair(k, v)]) == es + [Pair(k, v)];
    }
  }

  /** `unset($array[$k])`. */
  function Unset(es: seq<Pair>, k: Key): (r: seq<Pair>)
    ensures |r| <= |es|
    ensures forall p :: p in r ==> p in es && p.key != k
  {
    if |es| == 0 then []
    else if es[0].key == k then Unset(es[1..], k)
    else [es[0]] + Unset(es[1..], k)
  }

  lemma {:induction false} LookupUnset(es: seq<Pair>, k: Key, k': Key)
    ensures Lookup(Unset(es, k), k') == if k' == k then None else Lookup(es, k')
  {
    if |es| > 0 {
      LookupUnset(es[1..], k, k');
    }
  }

  /** Unsetting a key the array does not have changes nothing. */
  lemma {:induction false} UnsetAbsent(es: seq<Pair>, k: Key)
    requires forall p :: p in es ==> p.key != k
    ensures Unset(es, k) == es
  {
    if |es| > 0 {
      assert es[0] in es;
      UnsetAbsent(es[1..], k);
      assert [es[0]] + es[1..] == es;
    }
  }

  lemma {:induction false} UnsetConcat(a: seq<Pair>, b: seq<Pair>, k: Key)
    ensures Unset(a + b, k) == Unset(a, k) + Unset(b, k)
  {
    if |a| > 0 {
      UnsetConcat(a[1..], b, k);
      assert (a + b)[1..] == a[1..] + b;
    } else {
      assert a + b == b;
    }
  }

  /** Unsetting keeps keys distinct. */
  lemma {:induction false} UnsetDistinct(es: seq<Pair>, k: Key)
    requires Distinct(es)
    ensures Distinct(Unset(es, k))
  {
    if |es| > 0 {
      assert Distinct(es[1..]) by {
        forall a, b | 0 <= a < b < |es[1..]| ensures es[1..][a].key != es[1..][b].key {
          assert es[1..][a] == es[a + 1] && es[1..][b] == es[b + 1];
        }
      }
      UnsetDistinct(es[1..], k);
      var r := Unset(es[1..], k);
      forall q | q in r ensures q.key != es[0].key {
        var m :| 0 <= m < |es[1..]| && es[1..][m] == q;
        assert es[m + 1] == q;
      }
      DistinctCons(es[0], r);
    }
  }

  /** An entry whose key is new in front of a distinct array keeps it distinct. */
  lemma DistinctCons(p: Pair, es: seq<Pair>)
    requires Distinct(es) && forall q :: q in es ==> q.key != p.key
    ensures Distinct([p] + es)
  {
    var r := [p] + es;
    forall a, b | 0 <= a < b < |r| ensures r[a].key != r[b].key {
      assert r[b] == es[b - 1];
      if a > 0 {
        assert r[a] == es[a - 1];
      } else {
        assert es[b - 1] in es;
      }
    }
  }

  /** An array is well formed when its keys are distinct and every value it holds is. */
  lemma WellFormedFromMembers(es: seq<Pair>)
    requires Distinct(es) && forall p :: p in es ==> WellFormed(p.val)
    ensures WellFormed(Arr(es))
  {
    forall i | 0 <= i < |es| ensures WellFormed(es[i].val) {
      assert es[i] in es;
    }
  }

  /** Every value found in a well-formed array is well formed. */
  lemma WellFormedLookup(es: seq<Pair>, k: Key)
    requires WellFormed(Arr(es)) && HasKey(es, k)
    ensures WellFormed(Lookup(es, k).value)
  {
    var p := Pair(k, Lookup(es, k).value);
    var i :| 0 <= i < |es| && es[i] == p;
  }

  /** The list `[v0, v1, ...]`: keys 0, 1, ... in order. */
  function List(items: seq<Value>): (r: seq<Pair>)
    ensures |r| == |items|
    ensures forall i :: 0 <= i < |items| ==> r[i] == Pair(IntKey(i), items[i])
  {
    seq(|items|, i requires 0 <= i < |items| => Pair(IntKey(i), items[i]))
  }

  /** The next key `$array[] = $v` uses: one past the largest integer key, at least 0. */
  function NextIndex(es: seq<Pair>): (n: nat)
    ensures forall i :: 0 <= i < |es| && es[i].key.IntKey? ==> es[i].key.i < n
  {
    if |es| == 0 then 0
    else
      var n := NextIndex(es[..|es| - 1]);
      var last := es[|es| - 1];
      if last.key.IntKey? && last.key.i + 1 > n then last.key.i + 1 else n
  }

  /** `$array[] = $v`. */
  function Push(es: seq<Pair>, v: Value): seq<Pair> {
    es + [Pair(IntKey(NextIndex(es)), v)]
  }

  /** `array_filter($array)`: drop the falsy entries, keeping keys and order. */
  function ArrayFilter(es: seq<Pair>): (r: seq<Pair>)
    ensures |r| <= |es|
    ensures forall i :: 0 <= i < |r| ==> Truthy(r[i].val)
    ensures forall p :: p in r <==> p in es && Truthy(p.val)
  {
    if |es| == 0 then []
    else if Truthy(es[0].val) then [es[0]] + ArrayFilter(es[1..])
    else ArrayFilter(es[1..])
  }

  /** After `array_filter`, a key maps to its old value if that was truthy, and is gone otherwise. */
  lemma {:induction false} LookupArrayFilter(es: seq<Pair>, k: Key)
    requires Distinct(es)
    ensures Lookup(ArrayFilter(es), k) ==
      match Lookup(es, k)
      case Some(v) => if Truthy(v) then Some(v) else None
      case None => None
  {
    if |es| > 0 {
      assert Distinct(es[1..]) by {
        forall a, b | 0 <= a < b < |es[1..]| ensures es[1..][a].key != es[1..][b].key {
          assert es[1..][a] == es[a + 1] && es[1..][b] == es[b + 1];
        }
      }
      LookupArrayFilter(es[1..], k);
      if es[0].key == k && !Truthy(es[0].val) {
        forall i | 0 <= i < |es[1..]| ensures es[1..][i].key != k {
          assert es[1..][i] == es[i + 1];
        }
      }
    }
  }

  /** One step of `array_merge`: integer keys are renumbered, string keys overwrite. */
  function MergeEntry(acc: seq<Pair>, p: Pair): seq<Pair> {
    if p.key.IntKey? then Push(acc, p.val) else Set(acc, p.key, p.val)
  }

  function MergeInto(acc: seq<Pair>, es: seq<Pair>): seq<Pair>
    decreases |es|
  {
    if |es| == 0 then acc else MergeInto(MergeEntry(acc, es[0]), es[1..])
  }

  /** `array_merge($a, $b)`. */
  function ArrayMerge(a: seq<Pair>, b: seq<Pair>): seq<Pair> {
    MergeInto(MergeInto([], a), b)
  }

  /** A string key of the merged array holds the value from `es` if `es` has it, else the old one. */
  lemma {:induction false} LookupMergeInto(acc: seq<Pair>, es: seq<Pair>, s: string)
    requires Distinct(es)
    ensures Lookup(MergeInto(acc, es), StrKey(s)) ==
      if HasKey(es, StrKey(s)) then Lookup(es, StrKey(s)) else Lookup(acc, StrKey(s))
    decreases |es|
  {
    if |es| > 0 {
      var k := StrKey(s);
      assert Distinct(es[1..]) by {
        forall a, b | 0 <= a < b < |es[1..]| ensures es[1..][a].key != es[1..][b].key {
          assert es[1..][a] == es[a + 1] && es[1..][b] == es[b + 1];
        }
      }
      LookupMergeInto(MergeEntry(acc, es[0]), es[1..], s);
      if es[0].key.IntKey? {
        LookupAppend(acc, Pair(IntKey(NextIndex(acc)), es[0].val), k);
      } else {
        LookupSet(acc, es[0].key, es[0].val, k);
      }
      if es[0].key == k {
        forall i | 0 <= i < |es[1..]| ensures es[1..][i].key != k {
          assert es[1..][i] == es[i + 1];
        }
      }
    }
  }

  /**
   * `array_merge($a, $b)` on a string key: the later array wins, and a key
   * only one of them has keeps that array's value.
   */
  lemma LookupArrayMerge(a: seq<Pair>, b: seq<Pair>, s: string)
    requires Distinct(a) && Distinct(b)
    ensures Lookup(ArrayMerge(a, b), StrKey(s)) ==
      if HasKey(b, StrKey(s)) then Lookup(b, StrKey(s)) else Lookup(a, StrKey(s))
  {
    LookupMergeInto([], a, s);
    LookupMergeInto(MergeInto([], a), b, s);
  }

  // ---------------------------------------------------------------------------
  // Arr::get
  // ---------------------------------------------------------------------------

  /** Follow dot-separated segments down nested arrays, falling back to `default`. */
  function Walk(v: Value, segments: seq<string>, default: Value): Value
    decreases |segments|
  {
    if |segments| == 0 then v
    else if v.Arr? && HasKey(v.entries, KeyOf(segments[0])) then
      Walk(Lookup(v.entries, KeyOf(segments[0])).value, segments[1..], default)
    else default
  }

  /**
   * `Arr::get($array, $key, $default)`: the entry under `key` if it exists
   * (even when null); otherwise, for a dotted key, the entry found by walking
   * the segments; otherwise `default`.
   */
  function ArrGet(v: Value, key: string, default: Value): Value {
    if !v.Arr? then default
    else if HasKey(v.entries, KeyOf(key)) then Lookup(v.entries, KeyOf(key)).value
    else if '.' !in key then default
    else Walk(v, Explode('.', key), default)
  }

  /** Walking two segments: the entry under the second in the array under the first. */
  lemma WalkTwo(v: Value, a: string, b: string, default: Value)
    ensures Walk(v, [a, b], default) ==
      if v.Arr? && HasKey(v.entries, KeyOf(a)) then
        var w := Lookup(v.entries, KeyOf(a)).value;
        if w.Arr? && HasKey(w.entries, KeyOf(b)) then Lookup(w.entries, KeyOf(b)).value else default
      else default
  {
    assert [a, b][1..] == [b] && [b][1..] == [];
    if v.Arr? && HasKey(v.entries, KeyOf(a)) {
      var w := Lookup(v.entries, KeyOf(a)).value;
      assert Walk(v, [a, b], default) == Walk(w, [b], default);
      if w.Arr? && HasKey(w.entries, KeyOf(b)) {
        assert Walk(w, [b], default) == Walk(Lookup(w.entries, KeyOf(b)).value, [], default);
      }
    }
  }

  /** For a key without a dot, `Arr::get` is a plain lookup with a default. */
  lemma ArrGetPlain(es: seq<Pair>, key: string, default: Value)
    requires '.' !in key
    ensures ArrGet(Arr(es), key, default) ==
      match Lookup(es, KeyOf(key))
      case Some(v) => v
      case None => default
  {
  }

  /** `$v[$k1][$k2]...` read down nested arrays; `None` where a key is missing or a value is not an array. */
  function Dig(v: Value, path: seq<Key>): Option<Value>
    decreases |path|
  {
    if |path| == 0 then Some(v)
    else if !v.Arr? then None
    else
      match Lookup(v.entries, path[0])
      case None => None
      case Some(w) => Dig(w, path[1..])
  }

  /** Digging through an array starts with the lookup of the first key. */
  lemma DigFirst(v: Value, k: Key, rest: seq<Key>)
    requires v.Arr? && HasKey(v.entries, k)
    ensures Dig(v, [k] + rest) == Dig(Lookup(v.entries, k).value, rest)
  {
    assert ([k] + rest)[1..] == rest;
  }

  // ---------------------------------------------------------------------------
  // Sizes, for termination of recursion over nested arrays
  // ---------------------------------------------------------------------------

  function Sum(ns: seq<nat>): nat {
    if |ns| == 0 then 0 else ns[0] + Sum(ns[1..])
  }

  function Size(v: Value): nat {
    match v
    case Arr(es) => 1 + Sum(seq(|es|, i requires 0 <= i < |es| => Size(es[i].val)))
    case _ => 1
  }

  /** The sizes of the values held by an array, added up. */
  function SizeOfEntries(es: seq<Pair>): nat {
    Sum(seq(|es|, i requires 0 <= i < |es| => Size(es[i].val)))
  }

  lemma {:induction false} SumAt(ns: seq<nat>, i: nat)
    requires i < |ns|
    ensures ns[i] <= Sum(ns)
  {
    if i > 0 {
      SumAt(ns[1..], i - 1);
    }
  }

  lemma SizeOfEntry(es: seq<Pair>, i: nat)
    requires i < |es|
    ensures Size(es[i].val) < Size(Arr(es))
  {
    SumAt(seq(|es|, i requires 0 <= i < |es| => Size(es[i].val)), i);
  }

  lemma SizeOfEntriesCons(es: seq<Pair>)
    requires |es| > 0
    ensures SizeOfEntries(es) == Size(es[0].val) + SizeOfEntries(es[1..])
  {
    var ns := seq(|es|, i requires 0 <= i < |es| => Size(es[i].val));
    assert ns[1..] == seq(|es[1..]|, i requires 0 <= i < |es[1..]| => Size(es[1..][i].val));
  }
}
