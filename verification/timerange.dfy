/** The time-range selector: its three ranges, which button is active, and
    the URL a choice navigates to, built with `URLSearchParams.set`
    (section 6.2 of the WHATWG URL Standard). */
module TimeRange {
  import opened Form

  datatype RangeOption = RangeOption(value: string, caption: string)

  /** The ranges offered, in button order. */
  const RANGES: seq<RangeOption> := [
    RangeOption("short_term", "Last 4 Weeks"),
    RangeOption("medium_term", "Last 6 Months"),
    RangeOption("long_term", "All Time")
  ]

  datatype Variant = Default | Outline

  /** The variant of each button, in order: `default` for the current
      range, `outline` for the others. */
  function ButtonVariants(currentRange: string): (vs: seq<Variant>)
    ensures |vs| == |RANGES|
    ensures forall i :: 0 <= i < |vs| ==> (vs[i] == Default <==> RANGES[i].value == currentRange)
  {
    seq(|RANGES|, i requires 0 <= i < |RANGES| => if RANGES[i].value == currentRange then Default else Outline)
  }

  /** The range values are pairwise different, so at most one button is
      active, and one is exactly when the current range is among them. */
  lemma OneActiveButton(currentRange: string)
    ensures forall i, j :: 0 <= i < j < |RANGES| ==>
      !(ButtonVariants(currentRange)[i] == Default && ButtonVariants(currentRange)[j] == Default)
    ensures (exists i :: 0 <= i < |RANGES| && ButtonVariants(currentRange)[i] == Default) <==>
      currentRange in {"short_term", "medium_term", "long_term"}
  {
    var vs := ButtonVariants(currentRange);
    if currentRange == "short_term" {
      assert vs[0] == Default;
    } else if currentRange == "medium_term" {
      assert vs[1] == Default;
    } else if currentRange == "long_term" {
      assert vs[2] == Default;
    }
  }

  // ---------------------------------------------------------------------
  // URLSearchParams.set

  predicate HasName(list: seq<Param>, name: string) {
    exists i :: 0 <= i < |list| && list[i].name == name
  }

  /** The list with the first entry named `name` given `value` and every
      later one removed; `seen` says a first one came before. */
  function ReplaceFirst(list: seq<Param>, name: string, value: string, seen: bool): seq<Param>
    decreases |list|
  {
    if |list| == 0 then []
    else if list[0].name != name then [list[0]] + ReplaceFirst(list[1..], name, value, seen)
    else if seen then ReplaceFirst(list[1..], name, value, true)
    else [Param(name, value)] + ReplaceFirst(list[1..], name, value, true)
  }

  /** `set(name, value)`: the first entry of that name takes the value and
      the others go; with none, the entry is appended. */
  function SetParam(list: seq<Param>, name: string, value: string): seq<Param> {
    if HasName(list, name) then ReplaceFirst(list, name, value, false)
    else list + [Param(name, value)]
  }

  /** The entries not named `name`, in order. */
  function Without(list: seq<Param>, name: string): (r: seq<Param>)
    ensures forall i :: 0 <= i < |r| ==> r[i].name != name
    decreases |list|
  {
    if |list| == 0 then []
    else if list[0].name == name then Without(list[1..], name)
    else [list[0]] + Without(list[1..], name)
  }

  /** How many entries are named `name`. */
  function Count(list: seq<Param>, name: string): nat
    decreases |list|
  {
    if |list| == 0 then 0
    else (if list[0].name == name then 1 else 0) + Count(list[1..], name)
  }

  lemma {:induction false} ReplaceFirstAbsent(list: seq<Param>, name: string, value: string, seen: bool)
    requires !HasName(list, name)
    ensures ReplaceFirst(list, name, value, seen) == list
    decreases |list|
  {
    if |list| > 0 {
      assert list[0].name != name;
      assert !HasName(list[1..], name) by {
        forall i | 0 <= i < |list[1..]| ensures list[1..][i].name != name {
          assert list[1..][i] == list[i + 1];
        }
      }
      ReplaceFirstAbsent(list[1..], name, value, seen);
      assert [list[0]] + list[1..] == list;
    }
  }

  lemma {:induction false} CountAbsent(list: seq<Param>, name: string)
    requires !HasName(list, name)
    ensures Count(list, name) == 0
    decreases |list|
  {
    if |list| > 0 {
      assert list[0].name != name;
      assert !HasName(list[1..], name) by {
        forall i | 0 <= i < |list[1..]| ensures list[1..][i].name != name {
          assert list[1..][i] == list[i + 1];
        }
      }
      CountAbsent(list[1..], name);
    }
  }

  lemma {:induction false} CountAppend(a: seq<Param>, b: seq<Param>, name: string)
    ensures Count(a + b, name) == Count(a, name) + Count(b, name)
    decreases |a|
  {
    if |a| > 0 {
      CountAppend(a[1..], b, name);
      assert (a + b)[1..] == a[1..] + b;
    } else {
      assert a + b == b;
    }
  }

  lemma {:induction false} WithoutAppend(a: seq<Param>, b: seq<Param>, name: string)
    ensures Without(a + b, name) == Without(a, name) + Without(b, name)
    decreases |a|
  {
    if |a| > 0 {
      WithoutAppend(a[1..], b, name);
      assert (a + b)[1..] == a[1..] + b;
    } else {
      assert a + b == b;
    }
  }

  /** Facts about the replacement, by induction on the list: entries of other
      names and their order are kept; once a first entry was seen nothing of
      the name is left, and otherwise exactly as many as the list held, with
      a single one left when it held any. */
  lemma {:induction false} ReplaceFirstFacts(list: seq<Param>, name: string, value: string, seen: bool)
    ensures Without(ReplaceFirst(list, name, value, seen), name) == Without(list, name)
    ensures seen ==> Count(ReplaceFirst(list, name, value, seen), name) == 0
    ensures !seen ==> Count(ReplaceFirst(list, name, value, seen), name) == (if HasName(list, name) then 1 else 0)
    ensures forall p :: p in ReplaceFirst(list, name, value, seen) && p.name == name ==> p.value == value
    decreases |list|
  {
    if |list| > 0 {
      ReplaceFirstFacts(list[1..], name, value, seen || list[0].name == name);
      var rest := ReplaceFirst(list[1..], name, value, seen || list[0].name == name);
      if list[0].name != name {
        assert HasName(list, name) <==> HasName(list[1..], name) by {
          if HasName(list, name) {
            var i :| 0 <= i < |list| && list[i].name == name;
            assert list[1..][i - 1] == list[i];
          }
          if HasName(list[1..], name) {
            var i :| 0 <= i < |list[1..]| && list[1..][i].name == name;
            assert list[i + 1] == list[1..][i];
          }
        }
      } else {
        assert HasName(list, name) by { assert list[0].name == name; }
      }
    }
  }

  /** After `set(name, value)` exactly one entry has the name, and it holds
      the value. */
  lemma SetParamOnce(list: seq<Param>, name: string, value: string)
    ensures Count(SetParam(list, name, value), name) == 1
    ensures forall p :: p in SetParam(list, name, value) && p.name == name ==> p.value == value
  {
    if HasName(list, name) {
      ReplaceFirstFacts(list, name, value, false);
    } else {
      CountAbsent(list, name);
      CountAppend(list, [Param(name, value)], name);
      assert Count([Param(name, value)], name) == 1;
    }
  }

  /** `set` keeps every other entry, in order. */
  lemma SetParamKeepsOthers(list: seq<Param>, name: string, value: string)
    ensures Without(SetParam(list, name, value), name) == Without(list, name)
  {
    if HasName(list, name) {
      ReplaceFirstFacts(list, name, value, false);
    } else {
      WithoutAppend(list, [Param(name, value)], name);
      assert Without([Param(name, value)], name) == [];
      assert Without(list, name) + [] == Without(list, name);
    }
  }

  /** The index of the first entry named `name`, or `|list|` when none is. */
  function FirstIndex(list: seq<Param>, name: string): (i: nat)
    ensures i <= |list|
    ensures i < |list| ==> list[i].name == name
    ensures forall k :: 0 <= k < i ==> list[k].name != name
    decreases |list|
  {
    if |list| == 0 then 0
    else if list[0].name == name then 0
    else 1 + FirstIndex(list[1..], name)
  }

  lemma {:induction false} ReplaceFirstPosition(list: seq<Param>, name: string, value: string)
    ensures var r := ReplaceFirst(list, name, value, false);
      FirstIndex(r, name) == FirstIndex(list, name)
    decreases |list|
  {
    if |list| > 0 && list[0].name != name {
      ReplaceFirstPosition(list[1..], name, value);
      assert ReplaceFirst(list, name, value, false)[1..] == ReplaceFirst(list[1..], name, value, false);
    }
  }

  /** An existing entry is updated where the first one stood; otherwise the
      entry is added at the end. */
  lemma SetParamPosition(list: seq<Param>, name: string, value: string)
    ensures HasName(list, name) ==> FirstIndex(SetParam(list, name, value), name) == FirstIndex(list, name)
    ensures !HasName(list, name) ==> SetParam(list, name, value) == list + [Param(name, value)]
  {
    if HasName(list, name) {
      ReplaceFirstPosition(list, name, value);
    }
  }

  /** Setting the same value twice is the same as setting it once. */
  lemma SetParamIdempotent(list: seq<Param>, name: string, value: string)
    ensures SetParam(SetParam(list, name, value), name, value) == SetParam(list, name, value)
  {
    var once := SetParam(list, name, value);
    SetParamOnce(list, name, value);
    assert HasName(once, name) by {
      if !HasName(once, name) { CountAbsent(once, name); }
    }
    ReplaceFixed(once, name, value, false);
  }

  /** Replacing in a list that holds one entry of the name, already with the
      value, changes nothing. */
  lemma {:induction false} ReplaceFixed(list: seq<Param>, name: string, value: string, seen: bool)
    requires Count(list, name) == (if seen then 0 else 1) || (!seen && Count(list, name) == 0)
    requires forall p :: p in list && p.name == name ==> p.value == value
    ensures ReplaceFirst(list, name, value, seen) == list
    decreases |list|
  {
    if |list| > 0 {
      assert list[0] in list;
      if list[0].name == name {
        assert list[0] == Param(name, value);
      }
      forall p | p in list[1..] && p.name == name ensures p.value == value {
        assert p in list;
      }
      ReplaceFixed(list[1..], name, value, seen || list[0].name == name);
      assert [list[0]] + list[1..] == list;
    }
  }

  /** A `URLSearchParams` object: its list of entries, updated in place. */
  class SearchParams {
    var list: seq<Param>

    /** `new URLSearchParams(init)` for a query string. */
    constructor (init: string)
      ensures list == Parse(init)
    {
      list := Parse(init);
    }

    /** `toString()`: the `application/x-www-form-urlencoded` serialization. */
    function ToString(): string
      reads this
    {
      Serialize(list)
    }

    /** `set(name, value)`, one pass over the list. */
    method Set(name: string, value: string)
      modifies this
      ensures list == SetParam(old(list), name, value)
    {
      var out: seq<Param> := [];
      var seen := false;
      var i := 0;
      while i < |list|
        invariant 0 <= i <= |list|
        invariant seen == HasName(list[..i], name)
        invariant out + ReplaceFirst(list[i..], name, value, seen) == ReplaceFirst(list, name, value, false)
      {
        var p := list[i];
        assert list[i..] == [p] + list[i + 1..];
        assert list[..i + 1] == list[..i] + [p];
        assert HasName(list[..i + 1], name) <==> HasName(list[..i], name) || p.name == name by {
          if HasName(list[..i + 1], name) {
            var k :| 0 <= k < i + 1 && list[..i + 1][k].name == name;
            if k < i { assert list[..i][k] == list[..i + 1][k]; }
          }
          if HasName(list[..i], name) {
            var k :| 0 <= k < i && list[..i][k].name == name;
            assert list[..i + 1][k] == list[..i][k];
          }
          if p.name == name { assert list[..i + 1][i] == p; }
        }
        if p.name != name {
          out := out + [p];
        } else if !seen {
          out := out + [Param(name, value)];
          seen := true;
        }
        i := i + 1;
      }
      assert list[..i] == list;
      if !seen {
        ReplaceFirstAbsent(list, name, value, false);
        out := out + [Param(name, value)];
      }
      list := out;
    }
  }

  /** `handleRangeChange(range)`: the current query copied into a fresh
      parameter list, its `range` set, and the path, `?` and that list's
      serialization. The query reads back as the current entries with
      `range` set. */
  method HandleRangeChange(basePath: string, current: seq<Param>, range: string) returns (url: string)
    ensures url == basePath + "?" + Serialize(SetParam(current, "range", range))
    ensures |url| > |basePath| && url[..|basePath| + 1] == basePath + "?"
    ensures Parse(url[|basePath| + 1..]) == SetParam(current, "range", range)
  {
    ParseSerialize(current);
    var params := new SearchParams(Serialize(current));
    params.Set("range", range);
    var query := params.ToString();
    url := basePath + "?" + query;
    assert url[|basePath| + 1..] == query;
    ParseSerialize(params.list);
  }

  /** Choosing the range that was just chosen navigates to the same URL. */
  method ChooseTwice(basePath: string, current: seq<Param>, range: string) returns (first: string, second: string)
    ensures first == second
  {
    first := HandleRangeChange(basePath, current, range);
    second := HandleRangeChange(basePath, SetParam(current, "range", range), range);
    SetParamIdempotent(current, "range", range);
  }
}
