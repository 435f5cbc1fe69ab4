/**
 * RcCollections\Collection: a wrapper around one PHP array, its working set,
 * that each transformation replaces in place before returning the same
 * instance, so that calls chain on one working set.
 */
module RcCollections {
  import opened PhpKey
  import opened PhpArray

  /** The values of PHP's CASE_LOWER and CASE_UPPER constants. */
  const CASE_LOWER: int := 0
  const CASE_UPPER: int := 1

  class Collection<V> {
    /** The working set. */
    var data: seq<Entry<V>>

    ghost predicate Valid()
      reads this
    {
      IsArray(data)
    }

    /** Takes the caller's array as the working set, unchanged. */
    constructor (data: seq<Entry<V>>)
      requires IsArray(data)
      ensures Valid()
      ensures this.data == data
    {
      this.data := data;
    }

    /** Replaces every value by `handle` of it, keeping keys and order. */
    method Map(handle: V -> V) returns (self: Collection<V>)
      requires Valid()
      modifies this
      ensures self == this && Valid()
      ensures data == ArrayMap(handle, old(data))
    {
      ArrayMapIsArray(handle, data);
      data := ArrayMap(handle, data);
      self := this;
    }

    /** Keeps the entries whose value and key satisfy `handle`, keys untouched. */
    method Filter(handle: (V, Key) -> bool) returns (self: Collection<V>)
      requires Valid()
      modifies this
      ensures self == this && Valid()
      ensures data == ArrayFilterUseBoth(old(data), handle)
    {
      var kept := ArrayFilterUseBoth(data, handle);
      SubsequenceIsArray(kept, data);
      data := kept;
      self := this;
    }

    /**
     * Rekeys the working set with lower-cased string keys, or upper-cased ones
     * when `keyCase` is any value other than CASE_LOWER.
     */
    method ChangeKeyCase(keyCase: int := CASE_LOWER) returns (self: Collection<V>)
      requires Valid()
      modifies this
      ensures self == this && Valid()
      ensures data == ArrayChangeKeyCase(old(data), keyCase != CASE_LOWER)
    {
      ArrayChangeKeyCaseIsArray(data, keyCase != CASE_LOWER);
      data := ArrayChangeKeyCase(data, keyCase != CASE_LOWER);
      self := this;
    }

    /** The working set as it stands; reading it changes nothing. */
    method Result() returns (r: seq<Entry<V>>)
      requires Valid()
      ensures r == data && IsArray(r)
    {
      r := data;
    }
  }

  /** `(new Collection($data))->result()` gives back `$data` itself. */
  method ResultOfNew<V>(input: seq<Entry<V>>) returns (r: seq<Entry<V>>)
    requires IsArray(input)
    ensures r == input
  {
    var c := new Collection(input);
    r := c.Result();
  }

  /**
   * `(new Collection($data))->map($f)->filter($p)->changeKeyCase($keyCase)->result()`:
   * each call acts on the working set the previous one left, because each
   * returns the same instance.
   */
  method MapFilterChangeKeyCase<V>(input: seq<Entry<V>>, f: V -> V, p: (V, Key) -> bool, keyCase: int)
    returns (r: seq<Entry<V>>)
    requires IsArray(input)
    ensures r == ArrayChangeKeyCase(ArrayFilterUseBoth(ArrayMap(f, input), p), keyCase != CASE_LOWER)
    ensures IsArray(r)
  {
    var c := new Collection(input);
    var c1 := c.Map(f);
    var c2 := c1.Filter(p);
    var c3 := c2.ChangeKeyCase(keyCase);
    r := c3.Result();
  }

  /**
   * Two changeKeyCase calls in a row with the same case leave the working set
   * as one call does.
   */
  method ChangeKeyCaseTwice<V>(input: seq<Entry<V>>, keyCase: int) returns (r: seq<Entry<V>>)
    requires IsArray(input)
    ensures r == ArrayChangeKeyCase(input, keyCase != CASE_LOWER)
  {
    var c := new Collection(input);
    var c1 := c.ChangeKeyCase(keyCase);
    var c2 := c1.ChangeKeyCase(keyCase);
    r := c2.Result();
    ArrayChangeKeyCaseIdempotent(input, keyCase != CASE_LOWER);
  }

  /** `changeKeyCase(CASE_UPPER)` upper-cases the string keys of the working set. */
  method UpperCaseKeys<V>(input: seq<Entry<V>>) returns (r: seq<Entry<V>>)
    requires IsArray(input)
    ensures r == ArrayChangeKeyCase(input, true)
  {
    var c := new Collection(input);
    var c1 := c.ChangeKeyCase(CASE_UPPER);
    r := c1.Result();
  }

  /** `changeKeyCase()` without an argument lower-cases the string keys. */
  method LowerCaseKeysByDefault<V>(input: seq<Entry<V>>) returns (r: seq<Entry<V>>)
    requires IsArray(input)
    ensures r == ArrayChangeKeyCase(input, false)
  {
    var c := new Collection(input);
    var c1 := c.ChangeKeyCase();
    r := c1.Result();
  }
}
