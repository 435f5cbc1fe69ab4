/**
 * A PHP array as an ordered list of entries, and the three builtins that the
 * Collection class wraps: array_map with one array, array_filter with
 * ARRAY_FILTER_USE_BOTH, and array_change_key_case.
 *
 * The entries are listed in iteration order. A PHP array never holds two
 * entries with the same key, and its keys are in the normal form of PhpKey;
 * IsArray states both.
 */
module PhpArray {
  import opened PhpKey

  datatype Option<T> = None | Some(value: T)

  datatype Entry<V> = Entry(key: Key, value: V)

  function Keys<V>(a: seq<Entry<V>>): (ks: seq<Key>)
    ensures |ks| == |a|
  {
    seq(|a|, i requires 0 <= i < |a| => a[i].key)
  }

  predicate DistinctKeys<V>(a: seq<Entry<V>>)
  {
    forall i, j :: 0 <= i < j < |a| ==> a[i].key != a[j].key
  }

  predicate NormalKeys<V>(a: seq<Entry<V>>)
  {
    forall i :: 0 <= i < |a| ==> NormalKey(a[i].key)
  }

  /** The entry lists that are PHP arrays. */
  predicate IsArray<V>(a: seq<Entry<V>>)
  {
    DistinctKeys(a) && NormalKeys(a)
  }

  // ---------------------------------------------------------------------------
  // Lookup and insertion, as PHP's hash table does them

  /** The position of the first entry with key `k`, or |a| when there is none. */
  function Pos<V>(a: seq<Entry<V>>, k: Key): (p: nat)
    ensures p <= |a|
    ensures p < |a| ==> a[p].key == k
    ensures forall i :: 0 <= i < p ==> a[i].key != k
    decreases |a|
  {
    if a == [] then 0
    else if a[0].key == k then 0
    else 1 + Pos(a[1..], k)
  }

  lemma PosFound<V>(a: seq<Entry<V>>, k: Key)
    ensures Pos(a, k) < |a| <==> k in Keys(a)
  {
    var p := Pos(a, k);
    if p < |a| {
      assert Keys(a)[p] == k;
    }
    if k in Keys(a) {
      var i :| 0 <= i < |a| && Keys(a)[i] == k;
      assert a[i].key == k;
    }
  }

  /** `$a[$k]` read with `??`: the value stored under `k`, if any. */
  function Get<V>(a: seq<Entry<V>>, k: Key): (r: Option<V>)
    ensures r.Some? <==> k in Keys(a)
    ensures DistinctKeys(a) ==> forall i :: 0 <= i < |a| && a[i].key == k ==> r == Some(a[i].value)
  {
    PosFound(a, k);
    var p := Pos(a, k);
    if p < |a| then Some(a[p].value) else None
  }

  /**
   * `$a[$k] = $v`: an existing entry keeps its place and takes the new value;
   * a new key is appended at the end.
   */
  function Put<V>(a: seq<Entry<V>>, k: Key, v: V): (r: seq<Entry<V>>)
    ensures Keys(r) == if k in Keys(a) then Keys(a) else Keys(a) + [k]
    ensures DistinctKeys(a) ==> DistinctKeys(r)
  {
    PosFound(a, k);
    var p := Pos(a, k);
    if p < |a| then
      var r := a[p := Entry(k, v)];
      assert Keys(r) == Keys(a) by {
        forall i | 0 <= i < |a| ensures Keys(r)[i] == Keys(a)[i] {}
      }
      r
    else
      var r := a + [Entry(k, v)];
      assert Keys(r) == Keys(a) + [k] by {
        forall i | 0 <= i < |r| ensures Keys(r)[i] == (Keys(a) + [k])[i] {}
      }
      r
  }

  /** Writing a key makes it read back the new value and leaves every other key alone. */
  lemma PutGet<V>(a: seq<Entry<V>>, k: Key, v: V, k': Key)
    ensures Get(Put(a, k, v), k') == if k' == k then Some(v) else Get(a, k')
  {
    PosFound(a, k);
    var r := Put(a, k, v);
    var p := Pos(a, k);
    if k' != k {
      var q := Pos(a, k');
      assert forall i :: 0 <= i < |a| ==> (r[i].key == k' <==> a[i].key == k');
      if q < |a| {
        PosFirst(r, k', q);
      } else {
        PosAbsent(r, k');
      }
    } else {
      PosFirst(r, k, p);
    }
  }

  /** Pos is the first index with the key. */
  lemma PosFirst<V>(a: seq<Entry<V>>, k: Key, q: nat)
    requires q < |a| && a[q].key == k
    requires forall i :: 0 <= i < q ==> a[i].key != k
    ensures Pos(a, k) == q
  {
  }

  lemma PosAbsent<V>(a: seq<Entry<V>>, k: Key)
    requires forall i :: 0 <= i < |a| ==> a[i].key != k
    ensures Pos(a, k) == |a|
  {
  }

  // ---------------------------------------------------------------------------
  // array_map($handle, $a) with a single array

  /** Every value replaced by `f` of it; key and position stay. */
  function ArrayMap<V, W>(f: V -> W, a: seq<Entry<V>>): (r: seq<Entry<W>>)
    ensures |r| == |a|
    ensures forall i :: 0 <= i < |a| ==> r[i] == Entry(a[i].key, f(a[i].value))
    decreases |a|
  {
    if a == [] then []
    else [Entry(a[0].key, f(a[0].value))] + ArrayMap(f, a[1..])
  }

  lemma ArrayMapKeys<V, W>(f: V -> W, a: seq<Entry<V>>)
    ensures Keys(ArrayMap(f, a)) == Keys(a)
  {
  }

  lemma ArrayMapIsArray<V, W>(f: V -> W, a: seq<Entry<V>>)
    requires IsArray(a)
    ensures IsArray(ArrayMap(f, a))
  {
  }

  /** Reading key `k` of the mapped array gives `f` of what key `k` held. */
  lemma ArrayMapGet<V, W>(f: V -> W, a: seq<Entry<V>>, k: Key)
    ensures Get(ArrayMap(f, a), k) == match Get(a, k) case None => None case Some(v) => Some(f(v))
  {
  }

  /** Two maps in a row are one map by the composed function. */
  lemma ArrayMapCompose<U, V, W>(f: U -> V, g: V -> W, a: seq<Entry<U>>)
    ensures ArrayMap(g, ArrayMap(f, a)) == ArrayMap(x => g(f(x)), a)
  {
  }

  // ---------------------------------------------------------------------------
  // array_filter($a, $handle, ARRAY_FILTER_USE_BOTH)

  /** `s` is `t` with some entries left out and the rest in their order. */
  predicate IsSubsequence<T(==)>(s: seq<T>, t: seq<T>)
    decreases |t|
  {
    if t == [] then s == []
    else (s != [] && s[0] == t[0] && IsSubsequence(s[1..], t[1..])) || IsSubsequence(s, t[1..])
  }

  /** The entries whose value and key satisfy `p`, with their keys and in their order. */
  function ArrayFilterUseBoth<V>(a: seq<Entry<V>>, p: (V, Key) -> bool): (r: seq<Entry<V>>)
    ensures forall i :: 0 <= i < |r| ==> r[i] in a && p(r[i].value, r[i].key)
    ensures forall i :: 0 <= i < |a| && p(a[i].value, a[i].key) ==> a[i] in r
    ensures IsSubsequence(r, a)
    decreases |a|
  {
    if a == [] then []
    else
      var rest := ArrayFilterUseBoth(a[1..], p);
      assert forall i :: 0 < i < |a| ==> a[i] == a[1..][i - 1];
      if p(a[0].value, a[0].key) then
        assert ([a[0]] + rest)[1..] == rest;
        [a[0]] + rest
      else rest
  }

  lemma {:induction false} SubsequenceElements<T>(s: seq<T>, t: seq<T>)
    requires IsSubsequence(s, t)
    ensures |s| <= |t|
    ensures forall x :: x in s ==> x in t
    decreases |t|
  {
    if t != [] {
      if s != [] && s[0] == t[0] && IsSubsequence(s[1..], t[1..]) {
        SubsequenceElements(s[1..], t[1..]);
        assert forall x :: x in s ==> x == s[0] || x in s[1..];
      } else {
        SubsequenceElements(s, t[1..]);
      }
    }
  }

  /** Leaving entries out of a PHP array leaves a PHP array. */
  lemma {:induction false} SubsequenceIsArray<V>(s: seq<Entry<V>>, t: seq<Entry<V>>)
    requires IsSubsequence(s, t) && IsArray(t)
    ensures IsArray(s)
    decreases |t|
  {
    if t != [] {
      assert IsArray(t[1..]) by {
        forall i, j | 0 <= i < j < |t| - 1 ensures t[1..][i].key != t[1..][j].key {
          assert t[1..][i] == t[i + 1] && t[1..][j] == t[j + 1];
        }
      }
      if s != [] && s[0] == t[0] && IsSubsequence(s[1..], t[1..]) {
        SubsequenceIsArray(s[1..], t[1..]);
        SubsequenceElements(s[1..], t[1..]);
        forall j | 0 < j < |s| ensures s[0].key != s[j].key {
          assert s[j] == s[1..][j - 1];
          assert s[j] in t[1..];
          var m :| 0 <= m < |t| - 1 && t[1..][m] == s[j];
          assert t[m + 1] == s[j];
        }
        forall i, j | 0 < i < j < |s| ensures s[i].key != s[j].key {
          assert s[i] == s[1..][i - 1] && s[j] == s[1..][j - 1];
        }
        assert NormalKey(s[0].key);
        forall i | 0 < i < |s| ensures NormalKey(s[i].key) {
          assert s[i] == s[1..][i - 1];
        }
      } else {
        SubsequenceIsArray(s, t[1..]);
      }
    }
  }

  /** What filtering keeps: exactly the keys whose entry satisfies `p`, with unchanged values. */
  lemma ArrayFilterGet<V>(a: seq<Entry<V>>, p: (V, Key) -> bool, k: Key)
    requires DistinctKeys(a)
    ensures Get(ArrayFilterUseBoth(a, p), k) ==
            match Get(a, k) case None => None case Some(v) => if p(v, k) then Some(v) else None
  {
  }

  /** Filtering twice by the same test is filtering once. */
  lemma {:induction false} ArrayFilterIdempotent<V>(a: seq<Entry<V>>, p: (V, Key) -> bool)
    ensures ArrayFilterUseBoth(ArrayFilterUseBoth(a, p), p) == ArrayFilterUseBoth(a, p)
    decreases |a|
  {
    if a != [] {
      ArrayFilterIdempotent(a[1..], p);
      var rest := ArrayFilterUseBoth(a[1..], p);
      if p(a[0].value, a[0].key) {
        assert ([a[0]] + rest)[1..] == rest;
      }
    }
  }

  // ---------------------------------------------------------------------------
  // array_change_key_case($a, $case)

  /** The index of the first occurrence of `x` in `s`, or |s| when there is none. */
  function FirstIndex(s: seq<Key>, x: Key): (n: nat)
    ensures n <= |s|
    ensures n < |s| <==> x in s
    ensures n < |s| ==> s[n] == x
    ensures forall i :: 0 <= i < n ==> s[i] != x
    decreases |s|
  {
    if s == [] then 0
    else if s[0] == x then 0
    else 1 + FirstIndex(s[1..], x)
  }

  /** Appending an element does not move the first occurrence of one already present. */
  lemma FirstIndexSnoc(s: seq<Key>, y: Key, x: Key)
    requires x in s
    ensures FirstIndex(s + [y], x) == FirstIndex(s, x)
  {
    var q := FirstIndex(s, x);
    var t := s + [y];
    assert t[q] == x;
    assert forall i :: 0 <= i < q ==> t[i] != x;
  }

  /** The first occurrence of each element, in order of first occurrence. */
  function Dedup(s: seq<Key>): (r: seq<Key>)
    ensures forall x :: x in r <==> x in s
    ensures forall i, j :: 0 <= i < j < |r| ==> r[i] != r[j]
    ensures forall i, j :: 0 <= i < j < |r| ==> FirstIndex(s, r[i]) < FirstIndex(s, r[j])
    decreases |s|
  {
    if s == [] then []
    else
      var pre := s[..|s| - 1];
      var last := s[|s| - 1];
      var d := Dedup(pre);
      assert s == pre + [last];
      forall x | x in pre ensures FirstIndex(s, x) == FirstIndex(pre, x) {
        FirstIndexSnoc(pre, last, x);
      }
      if last in d then d
      else
        var r := d + [last];
        assert FirstIndex(s, last) == |pre| by {
          assert last !in pre;
          assert forall i :: 0 <= i < |pre| ==> s[i] == pre[i];
        }
        assert forall i :: 0 <= i < |d| ==> d[i] in pre && r[i] == d[i];
        r
  }

  /** The converted key of each entry, duplicates included. */
  function ConvertedKeys<V>(a: seq<Entry<V>>, upper: bool): (ks: seq<Key>)
    ensures |ks| == |a|
  {
    seq(|a|, i requires 0 <= i < |a| => ConvertKey(a[i].key, upper))
  }

  lemma ConvertedKeysPrefix<V>(a: seq<Entry<V>>, upper: bool, n: nat)
    requires n <= |a|
    ensures ConvertedKeys(a[..n], upper) == ConvertedKeys(a, upper)[..n]
  {
  }

  /**
   * array_change_key_case: the entries are written, in order, into a new
   * array under their converted keys. When two keys convert to the same key,
   * the later write replaces the value at the place of the earlier one.
   */
  function ArrayChangeKeyCase<V>(a: seq<Entry<V>>, upper: bool): (r: seq<Entry<V>>)
    ensures DistinctKeys(r)
    ensures Keys(r) == Dedup(ConvertedKeys(a, upper))
    decreases |a|
  {
    if a == [] then []
    else
      var n := |a| - 1;
      ConvertedKeysPrefix(a, upper, n);
      assert ConvertedKeys(a, upper) == ConvertedKeys(a[..n], upper) + [ConvertKey(a[n].key, upper)];
      Put(ArrayChangeKeyCase(a[..n], upper), ConvertKey(a[n].key, upper), a[n].value)
  }

  /** The value of the last entry whose key converts to `k`: the one a rekeyed array keeps. */
  function LastValue<V>(a: seq<Entry<V>>, upper: bool, k: Key): Option<V>
    decreases |a|
  {
    if a == [] then None
    else if ConvertKey(a[|a| - 1].key, upper) == k then Some(a[|a| - 1].value)
    else LastValue(a[..|a| - 1], upper, k)
  }

  /** Each key of the rekeyed array holds the value of the last entry that converts to it. */
  lemma {:induction false} ArrayChangeKeyCaseGet<V>(a: seq<Entry<V>>, upper: bool, k: Key)
    ensures Get(ArrayChangeKeyCase(a, upper), k) == LastValue(a, upper, k)
    decreases |a|
  {
    if a != [] {
      var n := |a| - 1;
      ArrayChangeKeyCaseGet(a[..n], upper, k);
      PutGet(ArrayChangeKeyCase(a[..n], upper), ConvertKey(a[n].key, upper), a[n].value, k);
    }
  }

  lemma {:induction false} LastValueAt<V>(a: seq<Entry<V>>, upper: bool, i: nat)
    requires i < |a|
    requires forall j :: i < j < |a| ==> ConvertKey(a[j].key, upper) != ConvertKey(a[i].key, upper)
    ensures LastValue(a, upper, ConvertKey(a[i].key, upper)) == Some(a[i].value)
    decreases |a|
  {
    if i < |a| - 1 {
      var n := |a| - 1;
      assert a[..n][i] == a[i];
      LastValueAt(a[..n], upper, i);
    }
  }

  /**
   * On a collision the later entry wins: the entry at index `i`, when no later
   * entry converts to the same key, is what the rekeyed array holds there.
   */
  lemma ArrayChangeKeyCaseLastWins<V>(a: seq<Entry<V>>, upper: bool, i: nat)
    requires i < |a|
    requires forall j :: i < j < |a| ==> ConvertKey(a[j].key, upper) != ConvertKey(a[i].key, upper)
    ensures Get(ArrayChangeKeyCase(a, upper), ConvertKey(a[i].key, upper)) == Some(a[i].value)
  {
    ArrayChangeKeyCaseGet(a, upper, ConvertKey(a[i].key, upper));
    LastValueAt(a, upper, i);
  }

  /** Every entry rekeyed in place, the reference for arrays without collisions. */
  function RekeyEach<V>(a: seq<Entry<V>>, upper: bool): (r: seq<Entry<V>>)
    ensures |r| == |a|
  {
    seq(|a|, i requires 0 <= i < |a| => Entry(ConvertKey(a[i].key, upper), a[i].value))
  }

  /**
   * Without collisions, array_change_key_case keeps every entry in its place:
   * integer keys and all values unchanged, string keys converted.
   */
  lemma {:induction false} ArrayChangeKeyCaseWithoutCollisions<V>(a: seq<Entry<V>>, upper: bool)
    requires DistinctKeys(RekeyEach(a, upper))
    ensures ArrayChangeKeyCase(a, upper) == RekeyEach(a, upper)
    decreases |a|
  {
    if a != [] {
      var n := |a| - 1;
      var full := RekeyEach(a, upper);
      var pre := RekeyEach(a[..n], upper);
      RekeyEachSnoc(a, upper);
      assert DistinctKeys(pre) by {
        forall i, j | 0 <= i < j < n ensures pre[i].key != pre[j].key {
          assert pre[i] == full[i] && pre[j] == full[j];
        }
      }
      ArrayChangeKeyCaseWithoutCollisions(a[..n], upper);
      var k := ConvertKey(a[n].key, upper);
      assert k !in Keys(pre) by {
        forall i | 0 <= i < n ensures Keys(pre)[i] != k {
          assert Keys(pre)[i] == full[i].key && full[n].key == k;
        }
      }
      PutNew(pre, k, a[n].value);
    }
  }

  lemma RekeyEachSnoc<V>(a: seq<Entry<V>>, upper: bool)
    requires a != []
    ensures RekeyEach(a, upper) ==
            RekeyEach(a[..|a| - 1], upper) + [Entry(ConvertKey(a[|a| - 1].key, upper), a[|a| - 1].value)]
  {
  }

  /** Writing a key the array does not hold appends it. */
  lemma PutNew<V>(a: seq<Entry<V>>, k: Key, v: V)
    requires k !in Keys(a)
    ensures Put(a, k, v) == a + [Entry(k, v)]
  {
  }

  /** Every key of the rekeyed array is the conversion of a key of the input. */
  lemma ArrayChangeKeyCaseKeyOrigin<V>(a: seq<Entry<V>>, upper: bool, i: nat)
    requires i < |ArrayChangeKeyCase(a, upper)|
    ensures exists j :: 0 <= j < |a| && ArrayChangeKeyCase(a, upper)[i].key == ConvertKey(a[j].key, upper)
  {
    var r := ArrayChangeKeyCase(a, upper);
    assert Keys(r)[i] in ConvertedKeys(a, upper);
    var j :| 0 <= j < |a| && ConvertedKeys(a, upper)[j] == Keys(r)[i];
    assert r[i].key == ConvertKey(a[j].key, upper);
  }

  /** Rekeying a PHP array gives a PHP array: keys unique and still in normal form. */
  lemma ArrayChangeKeyCaseIsArray<V>(a: seq<Entry<V>>, upper: bool)
    requires NormalKeys(a)
    ensures IsArray(ArrayChangeKeyCase(a, upper))
  {
    var r := ArrayChangeKeyCase(a, upper);
    forall i | 0 <= i < |r| ensures NormalKey(r[i].key) {
      ArrayChangeKeyCaseKeyOrigin(a, upper, i);
      var j :| 0 <= j < |a| && r[i].key == ConvertKey(a[j].key, upper);
      ConvertKeyNormal(a[j].key, upper);
    }
  }

  /** Changing the key case twice with the same case is changing it once. */
  lemma ArrayChangeKeyCaseIdempotent<V>(a: seq<Entry<V>>, upper: bool)
    ensures ArrayChangeKeyCase(ArrayChangeKeyCase(a, upper), upper) == ArrayChangeKeyCase(a, upper)
  {
    var r := ArrayChangeKeyCase(a, upper);
    var again := RekeyEach(r, upper);
    forall i | 0 <= i < |r| ensures again[i] == r[i] {
      ArrayChangeKeyCaseKeyOrigin(a, upper, i);
      var j :| 0 <= j < |a| && r[i].key == ConvertKey(a[j].key, upper);
      ConvertKeyIdempotent(a[j].key, upper);
    }
    assert again == r;
    ArrayChangeKeyCaseWithoutCollisions(r, upper);
  }

  /**
   * ['a' => 1, 'b' => 2, 'A' => 3] lower-cased is ['a' => 3, 'b' => 2]: the
   * colliding key keeps the first entry's place and takes the last entry's value.
   */
  lemma ArrayChangeKeyCaseCollisionExample()
    ensures ArrayChangeKeyCase([Entry(StrKey("a"), 1), Entry(StrKey("b"), 2), Entry(StrKey("A"), 3)], false)
            == [Entry(StrKey("a"), 3), Entry(StrKey("b"), 2)]
  {
    var a := [Entry(StrKey("a"), 1), Entry(StrKey("b"), 2), Entry(StrKey("A"), 3)];
    assert ConvertCase("A", false) == "a";
    assert ConvertCase("a", false) == "a";
    assert ConvertCase("b", false) == "b";
    var one := ArrayChangeKeyCase(a[..1], false);
    assert a[..1][..0] == [];
    assert one == [Entry(StrKey("a"), 1)] by {
      PutNew([], StrKey("a"), 1);
    }
    assert a[..2][..1] == a[..1];
    var two := ArrayChangeKeyCase(a[..2], false);
    assert two == [Entry(StrKey("a"), 1), Entry(StrKey("b"), 2)] by {
      assert StrKey("b") !in Keys(one);
      PutNew(one, StrKey("b"), 2);
    }
    assert a[..2] == a[..|a| - 1];
    assert Pos(two, StrKey("a")) == 0;
  }
}
