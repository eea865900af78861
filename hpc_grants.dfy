/**
 * The helpers hpc-grants uses to present a user's grants: allocations are
 * listed sorted by resource, and allocation parameters are shown with the
 * well-known ones first, as numbers with thousands separated by spaces and
 * followed by a unit.
 */
module HpcGrants {
  import opened Wrappers
  import opened Strings

  // ---------------------------------------------------------------------------
  // Values and insertion-ordered dictionaries
  // ---------------------------------------------------------------------------

  /** A parameter value as decoded from JSON: an integer or a string. */
  datatype Value = Int(n: int) | Str(s: string)

  /** A dictionary as its entries in insertion order. */
  type Dict = seq<(string, Value)>

  function Keys(d: Dict): (ks: seq<string>)
    ensures |ks| == |d| && forall i :: 0 <= i < |d| ==> ks[i] == d[i].0
  {
    if d == [] then [] else Keys(d[..|d| - 1]) + [d[|d| - 1].0]
  }

  /** No key occurs twice, as in every Python dictionary. */
  ghost predicate DistinctKeys(d: Dict) {
    forall i, j :: 0 <= i < j < |d| ==> d[i].0 != d[j].0
  }

  /** `d.get(k)`. */
  function Lookup(d: Dict, k: string): Option<Value> {
    if d == [] then None
    else if d[|d| - 1].0 == k then Some(d[|d| - 1].1)
    else Lookup(d[..|d| - 1], k)
  }

  /** `Lookup` finds exactly the keys of the dictionary, with a value stored under them. */
  lemma {:induction false} LookupSpec(d: Dict, k: string)
    ensures Lookup(d, k).None? <==> k !in Keys(d)
    ensures Lookup(d, k).Some? ==> (k, Lookup(d, k).value) in d
  {
    if d != [] {
      var init := d[..|d| - 1];
      LookupSpec(init, k);
      assert Keys(d) == Keys(init) + [d[|d| - 1].0];
    }
  }

  /** `d[k] = v`: an existing key keeps its position, a new one goes last. */
  function Put(d: Dict, k: string, v: Value): Dict {
    if d == [] then [(k, v)]
    else if d[0].0 == k then [(k, v)] + d[1..]
    else [d[0]] + Put(d[1..], k, v)
  }

  /** `d.update(e)`: the entries of `e` put one by one. */
  function UpdateAll(d: Dict, e: Dict): Dict {
    if e == [] then d
    else
      var last := e[|e| - 1];
      Put(UpdateAll(d, e[..|e| - 1]), last.0, last.1)
  }

  /** The entries of `d` whose key is not in `ks`, in order: `d` after `del d[k]` for each `k` of `ks`. */
  function Without(d: Dict, ks: seq<string>): Dict {
    if d == [] then []
    else Without(d[..|d| - 1], ks) + if d[|d| - 1].0 in ks then [] else [d[|d| - 1]]
  }

  /** Putting a key the dictionary lacks appends it. */
  lemma {:induction false} PutNewKey(d: Dict, k: string, v: Value)
    requires k !in Keys(d)
    ensures Put(d, k, v) == d + [(k, v)]
    decreases |d|
  {
    if d != [] {
      assert d[0].0 == Keys(d)[0];
      assert Keys(d[1..]) == Keys(d)[1..] by {
        var a, b := Keys(d[1..]), Keys(d)[1..];
        assert |a| == |b|;
        forall i | 0 <= i < |a| ensures a[i] == b[i] {}
      }
      PutNewKey(d[1..], k, v);
    }
  }

  /** Updating with a dictionary whose keys are all new appends its entries in order. */
  lemma {:induction false} UpdateAllNewKeys(d: Dict, e: Dict)
    requires DistinctKeys(e)
    requires forall i :: 0 <= i < |e| ==> e[i].0 !in Keys(d)
    ensures UpdateAll(d, e) == d + e
    decreases |e|
  {
    if e != [] {
      var init, last := e[..|e| - 1], e[|e| - 1];
      UpdateAllNewKeys(d, init);
      assert last.0 !in Keys(d + init) by {
        forall i | 0 <= i < |d + init|
          ensures (d + init)[i].0 != last.0
        {
          if i >= |d| {
            assert (d + init)[i] == e[i - |d|];
          } else {
            assert Keys(d)[i] == d[i].0;
          }
        }
      }
      PutNewKey(d + init, last.0, last.1);
      assert d + init + [last] == d + e;
    }
  }

  lemma {:induction false} WithoutSpec(d: Dict, ks: seq<string>)
    ensures forall i :: 0 <= i < |Without(d, ks)| ==> Without(d, ks)[i] in d && Without(d, ks)[i].0 !in ks
    ensures forall i :: 0 <= i < |d| && d[i].0 !in ks ==> d[i] in Without(d, ks)
    ensures DistinctKeys(d) ==> DistinctKeys(Without(d, ks))
  {
    if d != [] {
      var init, last := d[..|d| - 1], d[|d| - 1];
      WithoutSpec(init, ks);
      forall i | 0 <= i < |d| && d[i].0 !in ks
        ensures d[i] in Without(d, ks)
      {
        if i < |init| {
          assert d[i] == init[i];
        }
      }
      if DistinctKeys(d) {
        assert DistinctKeys(init) by {
          forall i, j | 0 <= i < j < |init| ensures init[i].0 != init[j].0 {
            assert init[i] == d[i] && init[j] == d[j];
          }
        }
        if last.0 !in ks {
          forall e | e in Without(init, ks)
            ensures e.0 != last.0
          {
            var i :| 0 <= i < |init| && init[i] == e;
            assert d[i] == e;
          }
        }
      }
    }
  }

  /** Deleting one more key from a filtered dictionary. */
  lemma {:induction false} WithoutStep(d: Dict, ks: seq<string>, k: string)
    ensures Without(Without(d, ks), [k]) == Without(d, ks + [k])
  {
    if d != [] {
      var init, last := d[..|d| - 1], d[|d| - 1];
      WithoutStep(init, ks, k);
      var w := Without(d, ks);
      assert (last.0 in ks + [k]) == (last.0 in ks || last.0 == k);
      if last.0 !in ks {
        assert w == Without(init, ks) + [last];
        assert w[..|w| - 1] == Without(init, ks);
      } else {
        assert w == Without(init, ks);
      }
    }
  }

  lemma {:induction false} WithoutNothing(d: Dict)
    ensures Without(d, []) == d
  {
    if d != [] {
      WithoutNothing(d[..|d| - 1]);
    }
  }

  // ---------------------------------------------------------------------------
  // format_number, integer branch
  // ---------------------------------------------------------------------------

  const USED_HOURS: string := "used hours"
  /** Python's message for a `,` format specification applied to a string. */
  const FORMAT_ERROR: string := "Cannot specify ',' with 's'."

  /** The string with its spaces dropped. */
  function RemoveSpaces(s: string): string {
    if s == [] then []
    else RemoveSpaces(s[..|s| - 1]) + if s[|s| - 1] == ' ' then "" else [s[|s| - 1]]
  }

  lemma {:induction false} RemoveSpacesAppend(a: string, b: string)
    ensures RemoveSpaces(a + b) == RemoveSpaces(a) + RemoveSpaces(b)
    decreases |b|
  {
    if b == [] {
      assert a + b == a;
    } else {
      assert (a + b)[..|a + b| - 1] == a + b[..|b| - 1];
      RemoveSpacesAppend(a, b[..|b| - 1]);
    }
  }

  lemma {:induction false} RemoveSpacesOfDigits(ds: string)
    requires forall i :: 0 <= i < |ds| ==> IsDigit(ds[i])
    ensures RemoveSpaces(ds) == ds
  {
    if ds != [] {
      RemoveSpacesOfDigits(ds[..|ds| - 1]);
    }
  }

  /** Digits split into groups of three from the right, joined by single spaces. */
  function Grouped(ds: string): string
    decreases |ds|
  {
    if |ds| <= 3 then ds else Grouped(ds[..|ds| - 3]) + " " + ds[|ds| - 3..]
  }

  /** The leading group has one to three digits, every later one three, with one space between groups. */
  lemma {:induction false} GroupedLength(ds: string)
    requires |ds| > 0
    ensures |Grouped(ds)| == |ds| + (|ds| - 1) / 3
    decreases |ds|
  {
    if |ds| > 3 {
      GroupedLength(ds[..|ds| - 3]);
    }
  }

  /** A space stands exactly at the positions that are a multiple of four from the end. */
  lemma {:induction false} GroupedSpaces(ds: string)
    requires forall i :: 0 <= i < |ds| ==> IsDigit(ds[i])
    ensures forall i :: 0 <= i < |Grouped(ds)| ==> (Grouped(ds)[i] == ' ' <==> (|Grouped(ds)| - i) % 4 == 0)
    decreases |ds|
  {
    var r := Grouped(ds);
    if |ds| <= 3 {
      assert r == ds;
      forall i | 0 <= i < |r|
        ensures r[i] == ' ' <==> (|r| - i) % 4 == 0
      {
        assert IsDigit(ds[i]);
        assert 1 <= |r| - i <= 3;
      }
    } else {
      var head, tail := ds[..|ds| - 3], ds[|ds| - 3..];
      GroupedSpaces(head);
      var g := Grouped(head);
      assert r == g + " " + tail;
      assert |r| == |g| + 4;
      forall i | 0 <= i < |r|
        ensures r[i] == ' ' <==> (|r| - i) % 4 == 0
      {
        if i < |g| {
          assert r[i] == g[i];
          assert (|r| - i) % 4 == (|g| - i) % 4;
        } else if i == |g| {
          assert r[i] == ' ';
        } else {
          assert r[i] == tail[i - |g| - 1];
          assert IsDigit(tail[i - |g| - 1]);
          assert 1 <= |r| - i <= 3;
        }
      }
    }
  }

  /** Dropping the spaces gives the digits back. */
  lemma {:induction false} GroupedRemoveSpaces(ds: string)
    requires forall i :: 0 <= i < |ds| ==> IsDigit(ds[i])
    ensures RemoveSpaces(Grouped(ds)) == ds
    decreases |ds|
  {
    if |ds| <= 3 {
      RemoveSpacesOfDigits(ds);
    } else {
      var head, tail := ds[..|ds| - 3], ds[|ds| - 3..];
      var g := Grouped(head);
      assert Grouped(ds) == g + " " + tail;
      assert RemoveSpaces(g) == head by {
        GroupedRemoveSpaces(head);
      }
      assert RemoveSpaces(tail) == tail by {
        RemoveSpacesOfDigits(tail);
      }
      assert RemoveSpaces(" ") == "" by {
        assert " "[..0] == "";
      }
      calc {
        RemoveSpaces(g + " " + tail);
        { RemoveSpacesAppend(g + " ", tail); }
        RemoveSpaces(g + " ") + RemoveSpaces(tail);
        { RemoveSpacesAppend(g, " "); }
        RemoveSpaces(g) + RemoveSpaces(" ") + RemoveSpaces(tail);
        head + "" + tail;
        { assert head + "" == head; }
        head + tail;
        ds;
      }
    }
  }

  /** `f'{value:,}'.replace(',', ' ')` for an integer: sign, then the grouped digits. */
  function FormatInt(n: int): (r: string)
    ensures RemoveSpaces(r) == IntToStr(n)
    ensures r == (if n < 0 then "-" else "") + Grouped(Decimal(if n < 0 then -n else n))
  {
    var digits := Decimal(if n < 0 then -n else n);
    GroupedRemoveSpaces(digits);
    if n < 0 then
      RemoveSpacesAppend("-", Grouped(digits));
      assert RemoveSpaces("-") == "-" by {
        assert "-"[..0] == "";
      }
      "-" + Grouped(digits)
    else Grouped(digits)
  }

  /** `format_number(value, name)` outside the `used hours` branch; a string value has no `,` format. */
  function FormatNumber(value: Value, name: string): (r: Result<string, PyError>)
    requires name != USED_HOURS
    ensures value.Int? <==> r.Ok?
    ensures value.Int? ==> r == Ok(FormatInt(value.n)) && RemoveSpaces(r.value) == IntToStr(value.n)
    ensures value.Str? ==> r == Err(ValueError(FORMAT_ERROR))
  {
    if value.Str? then Err(ValueError(FORMAT_ERROR)) else Ok(FormatInt(value.n))
  }

  /** The thousands of a large number are separated by single spaces. */
  lemma FormatNumberExample()
    ensures FormatNumber(Int(-1234), "hours") == Ok("-1 234")
  {
    assert Decimal(1234) == "1234" by {
      assert DigitChar(1) == '1' && DigitChar(2) == '2' && DigitChar(3) == '3' && DigitChar(4) == '4';
      assert Decimal(12) == "12";
      assert Decimal(123) == "123";
    }
    var s := "1234";
    assert s[..|s| - 3] == "1" && s[|s| - 3..] == "234";
    assert Grouped(s) == "1 234";
    assert FormatInt(-1234) == "-" + Grouped(Decimal(1234));
    assert "-" + "1 234" == "-1 234";
  }

  // ---------------------------------------------------------------------------
  // process_parameter_value
  // ---------------------------------------------------------------------------

  /** The unit shown after each known parameter. */
  const SUFFIX: map<string, string> := map["timelimit" := "h", "hours" := "h", "capacity" := "GB", USED_HOURS := "h"]

  /**
   * `process_parameter_value(name, value)`: the formatted number, a space and
   * the unit of `name`. The number is formatted first, so a string value fails
   * with `ValueError` even when `name` has no unit; an integer whose name has
   * no unit fails with `KeyError`.
   */
  function ProcessParameterValue(name: string, value: Value): (r: Result<string, PyError>)
    requires name != USED_HOURS
    ensures r.Ok? <==> value.Int? && name in SUFFIX
    ensures value.Str? ==> r == Err(ValueError(FORMAT_ERROR))
    ensures value.Int? && name !in SUFFIX ==> r == Err(KeyError(name))
    ensures r.Ok? ==> r.value == FormatInt(value.n) + " " + SUFFIX[name]
  {
    var formatted := FormatNumber(value, name);
    if formatted.Err? then Err(formatted.error)
    else if name !in SUFFIX then Err(KeyError(name))
    else Ok(formatted.value + " " + SUFFIX[name])
  }

  /** Hours and time limits are shown in hours, capacity in GB; other names have no unit. */
  lemma ParameterUnits(n: int)
    ensures ProcessParameterValue("hours", Int(n)) == Ok(FormatInt(n) + " " + "h")
    ensures ProcessParameterValue("timelimit", Int(n)) == Ok(FormatInt(n) + " " + "h")
    ensures ProcessParameterValue("capacity", Int(n)) == Ok(FormatInt(n) + " " + "GB")
    ensures ProcessParameterValue("cores", Int(n)) == Err(KeyError("cores"))
  {
    assert SUFFIX["hours"] == "h" && SUFFIX["timelimit"] == "h" && SUFFIX["capacity"] == "GB";
    assert "cores" !in SUFFIX;
  }

  // ---------------------------------------------------------------------------
  // process_parameters
  // ---------------------------------------------------------------------------

  /** The parameters shown first, in this order. */
  const PRIORITY: seq<string> := ["hours", "timelimit", "capacity"]

  /** The entries for the keys of `ks` present in `params`, in the order of `ks`, with their values formatted. */
  function Prioritized(params: Dict, ks: seq<string>): Result<Dict, PyError>
    requires forall i :: 0 <= i < |ks| ==> ks[i] != USED_HOURS
  {
    if ks == [] then Ok([])
    else
      var prev := Prioritized(params, ks[..|ks| - 1]);
      var k := ks[|ks| - 1];
      var v := Lookup(params, k);
      if prev.Err? || v.None? then prev
      else
        var text := ProcessParameterValue(k, v.value);
        if text.Err? then Err(text.error) else Ok(prev.value + [(k, Str(text.value))])
  }

  /** What `process_parameters(params)` returns. */
  function ProcessedParameters(params: Dict): Result<Dict, PyError> {
    var first := Prioritized(params, PRIORITY);
    if first.Err? then first else Ok(first.value + Without(params, PRIORITY))
  }

  lemma PrioritizedStep(params: Dict, ks: seq<string>, t: nat)
    requires t < |ks| && forall i :: 0 <= i < |ks| ==> ks[i] != USED_HOURS
    ensures var prev, k := Prioritized(params, ks[..t]), ks[t];
            Prioritized(params, ks[..t + 1]) ==
              if prev.Err? || Lookup(params, k).None? then prev
              else
                var text := ProcessParameterValue(k, Lookup(params, k).value);
                if text.Err? then Err(text.error) else Ok(prev.value + [(k, Str(text.value))])
  {
    assert ks[..t + 1][..t] == ks[..t];
  }

  /** The keys of the prioritized part are the present keys of `ks`. */
  lemma {:induction false} PrioritizedKeys(params: Dict, ks: seq<string>)
    requires forall i :: 0 <= i < |ks| ==> ks[i] != USED_HOURS
    ensures var p := Prioritized(params, ks);
            p.Ok? ==> forall k :: k in Keys(p.value) <==> k in ks && k in Keys(params)
  {
    if ks != [] {
      PrioritizedKeys(params, ks[..|ks| - 1]);
      LookupSpec(params, ks[|ks| - 1]);
      assert ks == ks[..|ks| - 1] + [ks[|ks| - 1]];
    }
  }

  /** One round of the loop of `process_parameters`, stated on the loop's variables. */
  lemma ProcessStep(params: Dict, ks: seq<string>, t: nat, rest: Dict, ordered: Dict)
    requires t < |ks| && ks[t] !in ks[..t] && forall i :: 0 <= i < |ks| ==> ks[i] != USED_HOURS
    requires rest == Without(params, ks[..t]) && Prioritized(params, ks[..t]) == Ok(ordered)
    ensures var key := ks[t];
            var value := Lookup(rest, key);
            && value == Lookup(params, key)
            && (value.None? ==> Prioritized(params, ks[..t + 1]) == Ok(ordered) && Without(params, ks[..t + 1]) == rest)
            && (value.Some? ==>
                  var text := ProcessParameterValue(key, value.value);
                  && Without(params, ks[..t + 1]) == Without(rest, [key])
                  && (text.Err? ==> Prioritized(params, ks[..t + 1]).Err? && Prioritized(params, ks[..t + 1]).error == text.error)
                  && (text.Ok? ==> Prioritized(params, ks[..t + 1]) == Ok(Put(ordered, key, Str(text.value)))))
  {
    var key, done := ks[t], ks[..t];
    assert ks[..t + 1] == done + [key];
    assert key !in done;
    PrioritizedStep(params, ks, t);
    WithoutLookup(params, done, key);
    WithoutStep(params, done, key);
    var value := Lookup(rest, key);
    if value.Some? {
      var text := ProcessParameterValue(key, value.value);
      if text.Ok? {
        PrioritizedKeys(params, done);
        PutNewKey(ordered, key, Str(text.value));
      }
    } else {
      WithoutAbsent(rest, key);
    }
  }

  /**
   * The loop of `process_parameters`: on a copy of `params`, move each
   * priority key that is present into the result with its value formatted,
   * then append what is left.
   */
  method ProcessParameters(params: Dict) returns (r: Result<Dict, PyError>)
    requires DistinctKeys(params)
    ensures r == ProcessedParameters(params)
  {
    var rest := params;
    var ordered: Dict := [];
    WithoutNothing(params);
    assert PRIORITY[0] != USED_HOURS && PRIORITY[1] != USED_HOURS && PRIORITY[2] != USED_HOURS;
    assert PRIORITY[0] != PRIORITY[1] && PRIORITY[0] != PRIORITY[2] && PRIORITY[1] != PRIORITY[2];
    for t := 0 to |PRIORITY|
      invariant rest == Without(params, PRIORITY[..t])
      invariant Prioritized(params, PRIORITY[..t]) == Ok(ordered)
    {
      assert PRIORITY[t] !in PRIORITY[..t];
      ProcessStep(params, PRIORITY, t, rest, ordered);
      var key := PRIORITY[t];
      var value := Lookup(rest, key);
      if value.Some? {
        var text := ProcessParameterValue(key, value.value);
        if text.Err? {
          r := Err(text.error);
          PrioritizedFailureSticks(params, PRIORITY, t + 1);
          assert Prioritized(params, PRIORITY) == r;
          return;
        }
        ordered := Put(ordered, key, Str(text.value));
        rest := Without(rest, [key]);
      }
    }
    assert PRIORITY[..|PRIORITY|] == PRIORITY;
    if rest != [] {
      UpdateWithRest(params, PRIORITY);
      ordered := UpdateAll(ordered, rest);
    } else {
      assert ordered == ordered + rest;
    }
    r := Ok(ordered);
  }

  /** The closing `update`: the keys left over are all new to the prioritized part, so their entries are appended. */
  lemma UpdateWithRest(params: Dict, ks: seq<string>)
    requires DistinctKeys(params) && forall i :: 0 <= i < |ks| ==> ks[i] != USED_HOURS
    ensures var p := Prioritized(params, ks);
            p.Ok? ==> UpdateAll(p.value, Without(params, ks)) == p.value + Without(params, ks)
  {
    var p := Prioritized(params, ks);
    if p.Ok? {
      WithoutSpec(params, ks);
      PrioritizedKeys(params, ks);
      UpdateAllNewKeys(p.value, Without(params, ks));
    }
  }

  /** The keys of `ks` that `params` has, in the order of `ks`. */
  function Present(params: Dict, ks: seq<string>): seq<string> {
    if ks == [] then []
    else Present(params, ks[..|ks| - 1]) + if ks[|ks| - 1] in Keys(params) then [ks[|ks| - 1]] else []
  }

  /** Looking up in a concatenation: the later part wins. */
  lemma {:induction false} LookupAppend(a: Dict, b: Dict, k: string)
    ensures Lookup(a + b, k) == if Lookup(b, k).Some? then Lookup(b, k) else Lookup(a, k)
    decreases |b|
  {
    if b == [] {
      assert a + b == a;
    } else {
      assert (a + b)[..|a + b| - 1] == a + b[..|b| - 1];
      LookupAppend(a, b[..|b| - 1], k);
    }
  }

  /** A deleted key is gone. */
  lemma {:induction false} WithoutRemoves(d: Dict, ks: seq<string>, k: string)
    requires k in ks
    ensures Lookup(Without(d, ks), k).None?
  {
    if d != [] {
      var init := d[..|d| - 1];
      WithoutRemoves(init, ks, k);
      var w := Without(d, ks);
      if d[|d| - 1].0 !in ks {
        assert w[..|w| - 1] == Without(init, ks);
      } else {
        assert w == Without(init, ks);
      }
    }
  }

  /** Some key of `ks` is present in `params` with a string value. */
  predicate HasStringValue(params: Dict, ks: seq<string>) {
    if ks == [] then false
    else
      var v := Lookup(params, ks[|ks| - 1]);
      HasStringValue(params, ks[..|ks| - 1]) || (v.Some? && v.value.Str?)
  }

  lemma {:induction false} HasStringValueIff(params: Dict, ks: seq<string>)
    ensures HasStringValue(params, ks) <==>
            exists i :: 0 <= i < |ks| && Lookup(params, ks[i]).Some? && Lookup(params, ks[i]).value.Str?
  {
    if ks != [] {
      var init := ks[..|ks| - 1];
      HasStringValueIff(params, init);
      if exists i :: 0 <= i < |ks| && Lookup(params, ks[i]).Some? && Lookup(params, ks[i]).value.Str? {
        var i :| 0 <= i < |ks| && Lookup(params, ks[i]).Some? && Lookup(params, ks[i]).value.Str?;
        if i < |init| {
          assert init[i] == ks[i];
        }
      }
      if exists i :: 0 <= i < |init| && Lookup(params, init[i]).Some? && Lookup(params, init[i]).value.Str? {
        var i :| 0 <= i < |init| && Lookup(params, init[i]).Some? && Lookup(params, init[i]).value.Str?;
        assert ks[i] == init[i];
      }
    }
  }

  lemma {:induction false} PrioritizedErrorStep(params: Dict, ks: seq<string>)
    requires forall i :: 0 <= i < |ks| ==> ks[i] != USED_HOURS && ks[i] in SUFFIX
    ensures var p := Prioritized(params, ks);
            && (p.Err? <==> HasStringValue(params, ks))
            && (p.Err? ==> p.error == ValueError(FORMAT_ERROR))
  {
    if ks != [] {
      PrioritizedErrorStep(params, ks[..|ks| - 1]);
    }
  }

  /** The prioritized part fails exactly when a present key of `ks` holds a string, with the `ValueError` of the `,` format. */
  lemma PrioritizedError(params: Dict, ks: seq<string>)
    requires forall i :: 0 <= i < |ks| ==> ks[i] != USED_HOURS && ks[i] in SUFFIX
    ensures var p := Prioritized(params, ks);
            && (p.Err? <==> exists i :: 0 <= i < |ks| && Lookup(params, ks[i]).Some? && Lookup(params, ks[i]).value.Str?)
            && (p.Err? ==> p.error == ValueError(FORMAT_ERROR))
  {
    PrioritizedErrorStep(params, ks);
    HasStringValueIff(params, ks);
  }

  /** The keys of the prioritized part are the present keys of `ks`, in the order of `ks`. */
  lemma {:induction false} PrioritizedKeyOrder(params: Dict, ks: seq<string>)
    requires forall i :: 0 <= i < |ks| ==> ks[i] != USED_HOURS
    ensures var p := Prioritized(params, ks);
            p.Ok? ==> Keys(p.value) == Present(params, ks)
  {
    if ks != [] {
      PrioritizedKeyOrder(params, ks[..|ks| - 1]);
      LookupSpec(params, ks[|ks| - 1]);
    }
  }

  /** Each present key of `ks` has its formatted value with unit in the prioritized part. */
  lemma {:induction false} PrioritizedValues(params: Dict, ks: seq<string>)
    requires forall i :: 0 <= i < |ks| ==> ks[i] != USED_HOURS
    ensures var p := Prioritized(params, ks);
            p.Ok? ==> forall k :: k in ks && Lookup(params, k).Some? ==>
                        Lookup(params, k).value.Int? && k in SUFFIX &&
                        Lookup(p.value, k) == Some(Str(FormatInt(Lookup(params, k).value.n) + " " + SUFFIX[k]))
  {
    if ks != [] {
      var init, k := ks[..|ks| - 1], ks[|ks| - 1];
      PrioritizedValues(params, init);
      var prev, p, v := Prioritized(params, init), Prioritized(params, ks), Lookup(params, k);
      if p.Ok? && v.Some? {
        var entry := (k, Str(FormatInt(v.value.n) + " " + SUFFIX[k]));
        assert p.value == prev.value + [entry];
        forall k' | k' in ks && Lookup(params, k').Some?
          ensures Lookup(params, k').value.Int? && k' in SUFFIX
          ensures Lookup(p.value, k') == Some(Str(FormatInt(Lookup(params, k').value.n) + " " + SUFFIX[k']))
        {
          LookupAppend(prev.value, [entry], k');
          if k' != k {
            assert k' in init;
          }
        }
      } else if p.Ok? {
        assert ks == init + [k];
      }
    }
  }

  /** Keys outside `ks` are absent from the prioritized part. */
  lemma PrioritizedAbsent(params: Dict, ks: seq<string>, k: string)
    requires forall i :: 0 <= i < |ks| ==> ks[i] != USED_HOURS
    requires k !in ks
    ensures var p := Prioritized(params, ks);
            p.Ok? ==> Lookup(p.value, k).None?
  {
    PrioritizedKeys(params, ks);
    var p := Prioritized(params, ks);
    if p.Ok? {
      LookupSpec(p.value, k);
    }
  }

  lemma KeysAppend(a: Dict, b: Dict)
    ensures Keys(a + b) == Keys(a) + Keys(b)
  {
  }

  /** Reordering by `ks` lists the present keys of `ks` first, then the remaining keys in their order. */
  lemma ReorderedKeyOrder(params: Dict, ks: seq<string>)
    requires forall i :: 0 <= i < |ks| ==> ks[i] != USED_HOURS
    ensures var p := Prioritized(params, ks);
            p.Ok? ==> Keys(p.value + Without(params, ks)) == Present(params, ks) + Keys(Without(params, ks))
  {
    PrioritizedKeyOrder(params, ks);
    var p := Prioritized(params, ks);
    if p.Ok? {
      KeysAppend(p.value, Without(params, ks));
    }
  }

  /** The key order of the result of `process_parameters`: present priority keys, then the others in their order. */
  lemma ProcessedParametersKeyOrder(params: Dict)
    ensures var r := ProcessedParameters(params);
            r.Ok? ==> Keys(r.value) == Present(params, PRIORITY) + Keys(Without(params, PRIORITY))
  {
    PrioritySuffixes();
    ReorderedKeyOrder(params, PRIORITY);
  }

  /** The keys left after deleting `ks` are the keys outside `ks`. */
  lemma {:induction false} WithoutKeys(d: Dict, ks: seq<string>)
    ensures forall k :: k in Keys(Without(d, ks)) <==> k in Keys(d) && k !in ks
  {
    if d != [] {
      var init, last := d[..|d| - 1], d[|d| - 1];
      WithoutKeys(init, ks);
      KeysAppend(init, [last]);
      assert d == init + [last];
      KeysAppend(Without(init, ks), if last.0 in ks then [] else [last]);
    }
  }

  /** Reordering by `ks` keeps the key set of the parameters. */
  lemma ReorderedKeySet(params: Dict, ks: seq<string>)
    requires forall i :: 0 <= i < |ks| ==> ks[i] != USED_HOURS
    ensures var p := Prioritized(params, ks);
            p.Ok? ==> forall k :: k in Keys(p.value + Without(params, ks)) <==> k in Keys(params)
  {
    PrioritizedKeys(params, ks);
    WithoutKeys(params, ks);
    var p := Prioritized(params, ks);
    if p.Ok? {
      KeysAppend(p.value, Without(params, ks));
    }
  }

  /** Reordering by a duplicate-free `ks` lists each key once when the parameters do. */
  lemma ReorderedDistinct(params: Dict, ks: seq<string>)
    requires forall i :: 0 <= i < |ks| ==> ks[i] != USED_HOURS
    requires forall i, j :: 0 <= i < j < |ks| ==> ks[i] != ks[j]
    requires DistinctKeys(params)
    ensures var p := Prioritized(params, ks);
            p.Ok? ==> DistinctKeys(p.value + Without(params, ks))
  {
    PrioritizedKeys(params, ks);
    WithoutSpec(params, ks);
    PrioritizedDistinct(params, ks);
    var p := Prioritized(params, ks);
    if p.Ok? {
      var first, rest := p.value, Without(params, ks);
      var r := first + rest;
      forall i, j | 0 <= i < j < |r|
        ensures r[i].0 != r[j].0
      {
        if j < |first| {
          assert r[i] == first[i] && r[j] == first[j];
        } else if i < |first| {
          assert Keys(first)[i] == first[i].0;
          assert r[j] == rest[j - |first|];
        } else {
          assert r[i] == rest[i - |first|] && r[j] == rest[j - |first|];
        }
      }
    }
  }

  /** `process_parameters` keeps the key set, and each key occurs once. */
  lemma ProcessedParametersKeySet(params: Dict)
    requires DistinctKeys(params)
    ensures var r := ProcessedParameters(params);
            r.Ok? ==> (forall k :: k in Keys(r.value) <==> k in Keys(params)) && DistinctKeys(r.value)
  {
    PrioritySuffixes();
    PriorityDistinct();
    ReorderedKeySet(params, PRIORITY);
    ReorderedDistinct(params, PRIORITY);
  }

  lemma PriorityDistinct()
    ensures forall i, j :: 0 <= i < j < |PRIORITY| ==> PRIORITY[i] != PRIORITY[j]
  {
  }

  /**
   * The priority parameters get their formatted value with unit; every other
   * parameter keeps its value. An error arises exactly when a priority
   * parameter holds a string.
   */
  lemma ProcessedParametersValues(params: Dict)
    ensures var r := ProcessedParameters(params);
            && (r.Err? <==> exists k :: k in PRIORITY && Lookup(params, k).Some? && Lookup(params, k).value.Str?)
            && (r.Err? ==> r.error == ValueError(FORMAT_ERROR))
            && (r.Ok? ==> forall k :: k in PRIORITY && Lookup(params, k).Some? ==>
                  Lookup(r.value, k) == Some(Str(FormatInt(Lookup(params, k).value.n) + " " + SUFFIX[k])))
            && (r.Ok? ==> forall k :: k !in PRIORITY ==> Lookup(r.value, k) == Lookup(params, k))
  {
    PrioritySuffixes();
    PrioritizedError(params, PRIORITY);
    PrioritizedValues(params, PRIORITY);
    var r := ProcessedParameters(params);
    if r.Ok? {
      var first, rest := Prioritized(params, PRIORITY).value, Without(params, PRIORITY);
      forall k | k in PRIORITY && Lookup(params, k).Some?
        ensures Lookup(r.value, k) == Some(Str(FormatInt(Lookup(params, k).value.n) + " " + SUFFIX[k]))
      {
        LookupAppend(first, rest, k);
        WithoutRemoves(params, PRIORITY, k);
      }
      forall k | k !in PRIORITY
        ensures Lookup(r.value, k) == Lookup(params, k)
      {
        LookupAppend(first, rest, k);
        WithoutLookup(params, PRIORITY, k);
        PrioritizedAbsent(params, PRIORITY, k);
      }
    }
    if exists k :: k in PRIORITY && Lookup(params, k).Some? && Lookup(params, k).value.Str? {
      var k :| k in PRIORITY && Lookup(params, k).Some? && Lookup(params, k).value.Str?;
      var i :| 0 <= i < |PRIORITY| && PRIORITY[i] == k;
    }
  }

  lemma PrioritySuffixes()
    ensures forall i :: 0 <= i < |PRIORITY| ==> PRIORITY[i] != USED_HOURS && PRIORITY[i] in SUFFIX
  {
    assert "hours" in SUFFIX && "timelimit" in SUFFIX && "capacity" in SUFFIX;
  }

  /** The prioritized part lists each key once when `ks` does. */
  lemma {:induction false} PrioritizedDistinct(params: Dict, ks: seq<string>)
    requires forall i :: 0 <= i < |ks| ==> ks[i] != USED_HOURS
    requires forall i, j :: 0 <= i < j < |ks| ==> ks[i] != ks[j]
    ensures Prioritized(params, ks).Ok? ==> DistinctKeys(Prioritized(params, ks).value)
  {
    if ks != [] {
      var init, k := ks[..|ks| - 1], ks[|ks| - 1];
      PrioritizedDistinct(params, init);
      PrioritizedKeys(params, init);
      var prev, p := Prioritized(params, init), Prioritized(params, ks);
      if p.Ok? && prev.Ok? && p != prev {
        var d := prev.value;
        assert k !in init;
        assert k !in Keys(d);
        forall i, j | 0 <= i < j < |p.value|
          ensures p.value[i].0 != p.value[j].0
        {
          if j < |d| {
            assert p.value[i] == d[i] && p.value[j] == d[j];
          } else {
            assert p.value[j].0 == k;
            assert Keys(d)[i] == p.value[i].0;
          }
        }
      }
    }
  }


  /** Deleting keys does not change the value of another key. */
  lemma {:induction false} WithoutLookup(d: Dict, ks: seq<string>, k: string)
    requires k !in ks
    ensures Lookup(Without(d, ks), k) == Lookup(d, k)
  {
    if d != [] {
      var init := d[..|d| - 1];
      WithoutLookup(init, ks, k);
      var w := Without(d, ks);
      if d[|d| - 1].0 !in ks {
        assert w[..|w| - 1] == Without(init, ks);
      } else {
        assert w == Without(init, ks);
      }
    }
  }

  /** Deleting a key the dictionary lacks changes nothing. */
  lemma {:induction false} WithoutAbsent(d: Dict, k: string)
    requires Lookup(d, k).None?
    ensures Without(d, [k]) == d
  {
    if d != [] {
      WithoutAbsent(d[..|d| - 1], k);
    }
  }

  lemma {:induction false} PrioritizedFailureSticks(params: Dict, ks: seq<string>, t: nat)
    requires forall i :: 0 <= i < |ks| ==> ks[i] != USED_HOURS
    requires t <= |ks| && Prioritized(params, ks[..t]).Err?
    ensures Prioritized(params, ks) == Prioritized(params, ks[..t])
    decreases |ks| - t
  {
    if t < |ks| {
      PrioritizedStep(params, ks, t);
      PrioritizedFailureSticks(params, ks, t + 1);
    } else {
      assert ks[..t] == ks;
    }
  }

  // ---------------------------------------------------------------------------
  // Ordering allocations by resource
  // ---------------------------------------------------------------------------

  const RESOURCE := "resource"

  /** Python's `<=` on strings: lexicographic comparison of code points. */
  predicate StrLe(a: string, b: string) {
    if a == [] then true
    else if b == [] then false
    else if a[0] != b[0] then a[0] < b[0]
    else StrLe(a[1..], b[1..])
  }

  lemma {:induction false} StrLeReflexive(a: string)
    ensures StrLe(a, a)
  {
    if a != [] {
      StrLeReflexive(a[1..]);
    }
  }

  lemma {:induction false} StrLeTotal(a: string, b: string)
    ensures StrLe(a, b) || StrLe(b, a)
  {
    if a != [] && b != [] && a[0] == b[0] {
      StrLeTotal(a[1..], b[1..]);
    }
  }

  lemma {:induction false} StrLeTransitive(a: string, b: string, c: string)
    requires StrLe(a, b) && StrLe(b, c)
    ensures StrLe(a, c)
  {
    if a != [] && b != [] && c != [] && a[0] == b[0] && b[0] == c[0] {
      StrLeTransitive(a[1..], b[1..], c[1..]);
    }
  }

  lemma {:induction false} StrLeAntisymmetric(a: string, b: string)
    requires StrLe(a, b) && StrLe(b, a)
    ensures a == b
  {
    if a != [] && b != [] {
      StrLeAntisymmetric(a[1..], b[1..]);
      assert a == [a[0]] + a[1..] && b == [b[0]] + b[1..];
    }
  }

  /** A string precedes every string it is a prefix of. */
  lemma {:induction false} StrLePrefix(a: string, b: string)
    ensures StrLe(a, a + b)
  {
    if a != [] {
      assert (a + b)[1..] == a[1..] + b;
      StrLePrefix(a[1..], b);
    }
  }

  /** Python's `<=` between two resource values; a number and a string are not comparable. */
  predicate ValueLe(a: Value, b: Value) {
    (a.Int? && b.Int? && a.n <= b.n) || (a.Str? && b.Str? && StrLe(a.s, b.s))
  }

  /** The sort key `x['resource']`, absent when the allocation has no such key. */
  function Resource(a: Dict): Option<Value> {
    Lookup(a, RESOURCE)
  }

  predicate ResourceLe(a: Dict, b: Dict) {
    Resource(a).Some? && Resource(b).Some? && ValueLe(Resource(a).value, Resource(b).value)
  }

  predicate AllHaveResource(s: seq<Dict>) {
    forall i :: 0 <= i < |s| ==> Resource(s[i]).Some?
  }

  /** All sort keys are numbers, or all are strings. */
  predicate SameKind(s: seq<Dict>)
    requires AllHaveResource(s)
  {
    forall i, j :: 0 <= i < |s| && 0 <= j < |s| ==> Resource(s[i]).value.Int? == Resource(s[j]).value.Int?
  }

  /** Two sort keys of the same kind are comparable either way round. */
  lemma ResourceLeTotal(a: Dict, b: Dict)
    requires Resource(a).Some? && Resource(b).Some? && Resource(a).value.Int? == Resource(b).value.Int?
    ensures ResourceLe(a, b) || ResourceLe(b, a)
  {
    if Resource(a).value.Str? {
      StrLeTotal(Resource(a).value.s, Resource(b).value.s);
    }
  }

  lemma ResourceLeTransitive(a: Dict, b: Dict, c: Dict)
    requires ResourceLe(a, b) && ResourceLe(b, c)
    ensures ResourceLe(a, c)
  {
    if Resource(a).value.Str? {
      StrLeTransitive(Resource(a).value.s, Resource(b).value.s, Resource(c).value.s);
    }
  }

  /** Puts `x` before the first element whose key is not below its own. */
  function Insert(x: Dict, s: seq<Dict>): seq<Dict> {
    if s == [] then [x]
    else if ResourceLe(x, s[0]) then [x] + s
    else [s[0]] + Insert(x, s[1..])
  }

  /** A stable sort by resource: each element goes in ahead of the equal keys that follow it in the input. */
  function SortByResource(s: seq<Dict>): seq<Dict> {
    if s == [] then [] else Insert(s[0], SortByResource(s[1..]))
  }

  /** `sorted(allocs, key=lambda x: x['resource'])`: every key is taken first, then the keys are compared. */
  function OrderAllocations(allocs: seq<Dict>): Result<seq<Dict>, PyError> {
    if !AllHaveResource(allocs) then Err(KeyError(RESOURCE))
    else if !SameKind(allocs) then Err(TypeError)
    else Ok(SortByResource(allocs))
  }

  predicate Sorted(s: seq<Dict>) {
    forall i, j :: 0 <= i < j < |s| ==> ResourceLe(s[i], s[j])
  }

  /** The allocations whose resource is `v`, in their order in `s`. */
  function WithResource(s: seq<Dict>, v: Value): seq<Dict> {
    if s == [] then []
    else (if Resource(s[0]) == Some(v) then [s[0]] else []) + WithResource(s[1..], v)
  }

  lemma {:induction false} InsertPermutation(x: Dict, s: seq<Dict>)
    ensures multiset(Insert(x, s)) == multiset(s) + multiset{x}
  {
    if s != [] && !ResourceLe(x, s[0]) {
      InsertPermutation(x, s[1..]);
      assert s == [s[0]] + s[1..];
    }
  }

  /** Sorting rearranges the allocations and neither drops nor duplicates any. */
  lemma {:induction false} SortPermutation(s: seq<Dict>)
    ensures multiset(SortByResource(s)) == multiset(s)
  {
    if s != [] {
      SortPermutation(s[1..]);
      InsertPermutation(s[0], SortByResource(s[1..]));
      assert s == [s[0]] + s[1..];
    }
  }

  /** A bound below `x` and below every element of `s` stays below every element after inserting `x`. */
  lemma BelowInsert(y: Dict, x: Dict, s: seq<Dict>)
    requires ResourceLe(y, x) && forall j :: 0 <= j < |s| ==> ResourceLe(y, s[j])
    ensures forall j :: 0 <= j < |Insert(x, s)| ==> ResourceLe(y, Insert(x, s)[j])
  {
    InsertPermutation(x, s);
    forall j | 0 <= j < |Insert(x, s)|
      ensures ResourceLe(y, Insert(x, s)[j])
    {
      var e := Insert(x, s)[j];
      assert e in multiset(Insert(x, s));
      if e != x {
        var k :| 0 <= k < |s| && s[k] == e;
      }
    }
  }

  lemma {:induction false} InsertSorted(x: Dict, s: seq<Dict>)
    requires Sorted(s) && Resource(x).Some?
    requires forall y :: y in s ==> Resource(y).Some? && Resource(y).value.Int? == Resource(x).value.Int?
    ensures Sorted(Insert(x, s))
  {
    if s != [] {
      var r := Insert(x, s);
      if ResourceLe(x, s[0]) {
        forall j | 1 <= j < |r|
          ensures ResourceLe(r[0], r[j])
        {
          if j > 1 {
            ResourceLeTransitive(x, s[0], s[j - 1]);
          }
        }
      } else {
        ResourceLeTotal(x, s[0]);
        var rest := Insert(x, s[1..]);
        InsertSorted(x, s[1..]);
        BelowInsert(s[0], x, s[1..]);
        forall i, j | 0 <= i < j < |r|
          ensures ResourceLe(r[i], r[j])
        {
          if i > 0 {
            assert r[i] == rest[i - 1] && r[j] == rest[j - 1];
          }
        }
      }
    }
  }

  /** Sorting allocations whose keys are all of one kind puts them in ascending order of resource. */
  lemma {:induction false} SortSorted(s: seq<Dict>)
    requires AllHaveResource(s) && SameKind(s)
    ensures Sorted(SortByResource(s))
  {
    if s != [] {
      var rest := SortByResource(s[1..]);
      assert AllHaveResource(s[1..]) && SameKind(s[1..]) by {
        forall i | 0 <= i < |s[1..]| ensures s[1..][i] == s[i + 1] { }
      }
      SortSorted(s[1..]);
      SortPermutation(s[1..]);
      forall y | y in rest
        ensures Resource(y).Some? && Resource(y).value.Int? == Resource(s[0]).value.Int?
      {
        assert y in multiset(s[1..]);
        var k :| 0 <= k < |s[1..]| && s[1..][k] == y;
        assert s[k + 1] == y;
      }
      InsertSorted(s[0], rest);
    }
  }

  /** Inserting `x` keeps the order of the allocations that share a resource, with `x` ahead of those equal to it. */
  /** Allocations with the same resource compare as `<=`. */
  lemma EqualKeysLe(a: Dict, b: Dict)
    requires Resource(a).Some? && Resource(a) == Resource(b)
    ensures ResourceLe(a, b)
  {
    if Resource(a).value.Str? {
      StrLeReflexive(Resource(a).value.s);
    }
  }

  lemma WithResourceCons(a: Dict, t: seq<Dict>, v: Value)
    ensures WithResource([a] + t, v) == (if Resource(a) == Some(v) then [a] else []) + WithResource(t, v)
  {
    assert ([a] + t)[1..] == t;
  }

  /** Inserting `x` past the head `s[0]`, given the claim for the tail. */
  lemma InsertStablePast(x: Dict, s: seq<Dict>, v: Value)
    requires s != [] && !ResourceLe(x, s[0])
    requires WithResource(Insert(x, s[1..]), v) == (if Resource(x) == Some(v) then [x] else []) + WithResource(s[1..], v)
    ensures WithResource(Insert(x, s), v) == (if Resource(x) == Some(v) then [x] else []) + WithResource(s, v)
  {
    var rest, tail := Insert(x, s[1..]), WithResource(s[1..], v);
    var head: seq<Dict> := if Resource(s[0]) == Some(v) then [s[0]] else [];
    var mine: seq<Dict> := if Resource(x) == Some(v) then [x] else [];
    assert WithResource(Insert(x, s), v) == head + WithResource(rest, v) by {
      assert Insert(x, s) == [s[0]] + rest;
      WithResourceCons(s[0], rest, v);
    }
    assert WithResource(s, v) == head + tail by {
      WithResourceCons(s[0], s[1..], v);
      assert [s[0]] + s[1..] == s;
    }
    assert head == [] || mine == [] by {
      if Resource(x) == Some(v) && Resource(s[0]) == Some(v) {
        EqualKeysLe(x, s[0]);
      }
    }
    if head == [] {
      assert head + tail == tail && head + (mine + tail) == mine + tail;
    } else {
      assert mine + tail == tail && mine + (head + tail) == head + tail;
    }
  }

  lemma {:induction false} InsertStable(x: Dict, s: seq<Dict>, v: Value)
    ensures WithResource(Insert(x, s), v) ==
              (if Resource(x) == Some(v) then [x] else []) + WithResource(s, v)
  {
    if s == [] {
    } else if ResourceLe(x, s[0]) {
      WithResourceCons(x, s, v);
    } else {
      InsertStable(x, s[1..], v);
      InsertStablePast(x, s, v);
    }
  }

  /** The sort is stable: allocations with the same resource keep their relative order. */
  lemma {:induction false} SortStable(s: seq<Dict>, v: Value)
    ensures WithResource(SortByResource(s), v) == WithResource(s, v)
  {
    if s != [] {
      SortStable(s[1..], v);
      InsertStable(s[0], SortByResource(s[1..]), v);
    }
  }

  /**
   * `order_allocations` fails with `KeyError` when an allocation has no
   * resource, and with `TypeError` when numbers and strings are mixed, which
   * takes at least two allocations.
   */
  lemma OrderAllocationsErrors(allocs: seq<Dict>)
    ensures var r := OrderAllocations(allocs);
            && (r.Err? <==> !AllHaveResource(allocs) || !SameKind(allocs))
            && (!AllHaveResource(allocs) ==> r == Err(KeyError(RESOURCE)))
            && (AllHaveResource(allocs) && !SameKind(allocs) ==> r == Err(TypeError) && |allocs| >= 2)
  {
  }

  /**
   * Otherwise the result of `order_allocations` is a stable rearrangement of
   * the allocations in ascending order of resource.
   */
  lemma OrderAllocationsSorts(allocs: seq<Dict>)
    ensures var r := OrderAllocations(allocs);
            r.Ok? ==> && multiset(r.value) == multiset(allocs)
                      && Sorted(r.value)
                      && forall v :: WithResource(r.value, v) == WithResource(allocs, v)
  {
    if AllHaveResource(allocs) && SameKind(allocs) {
      SortPermutation(allocs);
      SortSorted(allocs);
      forall v
        ensures WithResource(SortByResource(allocs), v) == WithResource(allocs, v)
      {
        SortStable(allocs, v);
      }
    }
  }
}
