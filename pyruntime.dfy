/** The pieces of Python's run-time behaviour that the tab bookkeeping of
    `RunProgram` depends on: exceptions, `str` of a non-negative integer,
    list indexing and `list.pop` (negative indices count from the end), and
    the built-in `dict`, which remembers the order in which keys were
    inserted. */
module PyRuntime {

  /** The exceptions the modelled code can raise. */
  datatype PyError = IndexError | KeyError(key: string) | AttributeError(name: string)

  datatype Option<+T> = None | Some(value: T)

  /** The value an expression produced, or the exception it raised. */
  datatype Result<+T> = Ok(value: T) | Err(error: PyError)

  ghost predicate Distinct<T>(s: seq<T>) {
    forall i, j :: 0 <= i < j < |s| ==> s[i] != s[j]
  }

  ghost predicate Increasing(s: seq<int>) {
    forall i, j :: 0 <= i < j < |s| ==> s[i] < s[j]
  }

  /** Removing one position keeps a sequence strictly increasing. */
  lemma IncreasingWithout(s: seq<int>, k: nat)
    requires Increasing(s) && k < |s|
    ensures Increasing(s[..k] + s[k + 1..])
  {
    var r := s[..k] + s[k + 1..];
    forall i, j | 0 <= i < j < |r| ensures r[i] < r[j] {
      var i' := if i < k then i else i + 1;
      var j' := if j < k then j else j + 1;
      assert r[i] == s[i'] && r[j] == s[j'];
    }
  }

  /** Removing one position keeps the elements of a sequence distinct. */
  lemma DistinctWithout<T>(s: seq<T>, k: nat)
    requires Distinct(s) && k < |s|
    ensures Distinct(s[..k] + s[k + 1..])
  {
    var r := s[..k] + s[k + 1..];
    forall i, j | 0 <= i < j < |r| ensures r[i] != r[j] {
      var i' := if i < k then i else i + 1;
      var j' := if j < k then j else j + 1;
      assert r[i] == s[i'] && r[j] == s[j'];
    }
  }

  /** The first |s| - 1 elements of a sequence of distinct elements are
      distinct, and its last element is not among them. */
  lemma DistinctInit<T>(s: seq<T>)
    requires Distinct(s) && s != []
    ensures Distinct(s[..|s| - 1]) && s[|s| - 1] !in s[..|s| - 1]
  {
    var init := s[..|s| - 1];
    forall i, j | 0 <= i < j < |init| ensures init[i] != init[j] {
      assert init[i] == s[i] && init[j] == s[j];
    }
  }

  /** Appending an element not yet present keeps the elements distinct. */
  lemma DistinctSnoc<T>(s: seq<T>, x: T)
    requires Distinct(s) && x !in s
    ensures Distinct(s + [x])
  {
  }

  // ---------------------------------------------------------------------
  // str(n) for n >= 0
  // ---------------------------------------------------------------------

  function DigitChar(d: nat): (c: char)
    requires d < 10
    ensures '0' <= c <= '9'
  {
    (48 + d) as char
  }

  function DigitValue(c: char): nat
  {
    if '0' <= c <= '9' then c as int - 48 else 0
  }

  /** `str(n)`: the decimal digits of n, most significant first, with no
      leading zero. */
  function Str(n: nat): (s: string)
    ensures 1 <= |s|
    ensures forall i :: 0 <= i < |s| ==> '0' <= s[i] <= '9'
    ensures 1 <= n ==> s[0] != '0'
  {
    if n < 10 then [DigitChar(n)] else Str(n / 10) + [DigitChar(n % 10)]
  }

  /** `int(s)` for a string of decimal digits. */
  function ParseDecimal(s: string): nat
  {
    if s == [] then 0 else ParseDecimal(s[..|s| - 1]) * 10 + DigitValue(s[|s| - 1])
  }

  /** `int(str(n)) == n`. */
  lemma {:induction false} ParseStr(n: nat)
    ensures ParseDecimal(Str(n)) == n
  {
    if n >= 10 {
      var s := Str(n);
      assert s[..|s| - 1] == Str(n / 10);
      ParseStr(n / 10);
    }
  }

  /** Distinct numbers have distinct decimal strings. */
  lemma StrInjective(a: nat, b: nat)
    ensures Str(a) == Str(b) ==> a == b
  {
    ParseStr(a);
    ParseStr(b);
  }

  // ---------------------------------------------------------------------
  // list indexing and list.pop
  // ---------------------------------------------------------------------

  /** The position a Python index i denotes in a list of length n. */
  function Position(n: nat, i: int): int
  {
    if i < 0 then n + i else i
  }

  /** `s[i]`: a negative index counts from the end; an index outside
      `-len(s) <= i < len(s)` raises IndexError. */
  function PyIndex<T>(s: seq<T>, i: int): (r: Result<T>)
    ensures r.Ok? <==> -|s| <= i < |s|
    ensures r.Ok? ==> r.value == s[Position(|s|, i)]
    ensures r.Err? ==> r.error == IndexError
  {
    if -|s| <= i < |s| then Ok(s[Position(|s|, i)]) else Err(IndexError)
  }

  /** `s.pop(i)`, giving the list that remains; same index rules as `s[i]`. */
  function PyPop<T>(s: seq<T>, i: int): (r: Result<seq<T>>)
    ensures r.Ok? <==> PyIndex(s, i).Ok?
    ensures r.Ok? ==> var k := Position(|s|, i); r.value == s[..k] + s[k + 1..]
    ensures r.Ok? ==> multiset(r.value) + multiset{PyIndex(s, i).value} == multiset(s)
    ensures r.Err? ==> r.error == IndexError
  {
    if -|s| <= i < |s| then
      var k := Position(|s|, i);
      assert s == s[..k] + [s[k]] + s[k + 1..];
      Ok(s[..k] + s[k + 1..])
    else Err(IndexError)
  }

  // ---------------------------------------------------------------------
  // dict (insertion-ordered, string keys)
  // ---------------------------------------------------------------------

  /** s with the first occurrence of x taken out. */
  function Without<T(==)>(s: seq<T>, x: T): (r: seq<T>)
  {
    if s == [] then [] else if s[0] == x then s[1..] else [s[0]] + Without(s[1..], x)
  }

  /** In a sequence of distinct elements, taking out the element at k
      removes exactly position k. */
  lemma {:induction false} WithoutAt<T>(s: seq<T>, k: nat)
    requires Distinct(s) && k < |s|
    ensures Without(s, s[k]) == s[..k] + s[k + 1..]
  {
    if k > 0 {
      assert s[0] != s[k];
      var t := s[1..];
      assert Distinct(t) by {
        forall i, j | 0 <= i < j < |t| ensures t[i] != t[j] {
          assert t[i] == s[i + 1] && t[j] == s[j + 1];
        }
      }
      assert t[k - 1] == s[k];
      WithoutAt(t, k - 1);
      assert [s[0]] + (t[..k - 1] + t[k..]) == s[..k] + s[k + 1..];
    }
  }

  /** A Python dict with string keys: the keys in insertion order, and the
      entries. */
  datatype Dict<V> = Dict(order: seq<string>, entries: map<string, V>) {

    /** Each key appears once in the order, and the order holds exactly
        the keys of the entries. */
    ghost predicate Valid() {
      Distinct(order) && forall k :: k in entries <==> k in order
    }

    /** `d[k] = v`: a new key goes to the end of the order, an existing key
        keeps its place. */
    function Set(k: string, v: V): (d: Dict<V>)
      ensures d.entries == entries[k := v]
      ensures k in entries ==> d.order == order
      ensures Valid() && k !in entries ==> d.order == order + [k]
      ensures Valid() ==> d.Valid()
    {
      if k in entries then Dict(order, entries[k := v]) else Dict(order + [k], entries[k := v])
    }

    /** `d.pop(k)`, giving the dict that remains; KeyError if k is absent. */
    function Pop(k: string): (r: Result<Dict<V>>)
      ensures r.Ok? <==> k in entries
      ensures r.Ok? ==> r.value.entries == entries - {k}
      ensures r.Err? ==> r.error == KeyError(k)
      ensures Valid() && r.Ok? ==> r.value.Valid()
      ensures Valid() && r.Ok? ==>
        forall i :: 0 <= i < |order| && order[i] == k ==> r.value.order == order[..i] + order[i + 1..]
    {
      if k in entries then
        DictWithout(this, k);
        Ok(Dict(Without(order, k), entries - {k}))
      else Err(KeyError(k))
    }
  }

  /** In a sequence of distinct elements, dropping position k drops exactly
      the element found there. */
  lemma InWithoutPosition<T>(s: seq<T>, k: nat, x: T)
    requires Distinct(s) && k < |s|
    ensures x in s[..k] + s[k + 1..] <==> x in s && x != s[k]
  {
    var r := s[..k] + s[k + 1..];
    if x in r {
      var j :| 0 <= j < |r| && r[j] == x;
      var j' := if j < k then j else j + 1;
      assert s[j'] == x;
    }
    if x in s && x != s[k] {
      var j :| 0 <= j < |s| && s[j] == x;
      if j < k { assert r[j] == x; } else { assert r[j - 1] == x; }
    }
  }

  /** Taking a present key out of a valid dict removes exactly its position
      from the order and leaves a valid dict. */
  lemma DictWithout<V>(d: Dict<V>, k: string)
    requires k in d.entries
    ensures d.Valid() ==> Dict(Without(d.order, k), d.entries - {k}).Valid()
    ensures d.Valid() ==> forall i :: 0 <= i < |d.order| && d.order[i] == k ==> Without(d.order, k) == d.order[..i] + d.order[i + 1..]
  {
    if d.Valid() {
      var order := d.order;
      var i :| 0 <= i < |order| && order[i] == k;
      WithoutAt(order, i);
      DistinctWithout(order, i);
      forall x ensures x in d.entries - {k} <==> x in Without(order, k) {
        InWithoutPosition(order, i, x);
      }
    }
  }
}
