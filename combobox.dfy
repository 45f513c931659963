/** components/ui/combobox.tsx: the searchable select. The list shows the options with repeated
    values dropped (the first one of each value is kept), and the trigger shows the label of
    the selected value. Labels are modelled as text (`labelText`, since `label` is a Dafny
    keyword); other React nodes are not. */
module Combobox {
  import opened Wrappers
  import opened Lists

  datatype ComboOption = ComboOption(value: string, labelText: string, disable: bool, searchValue: string)

  function Values(s: seq<ComboOption>): set<string>
  {
    set i | 0 <= i < |s| :: s[i].value
  }

  lemma ValuesSnoc(s: seq<ComboOption>, o: ComboOption)
    ensures Values(s + [o]) == Values(s) + {o.value}
  {
    var t := s + [o];
    assert t[|s|] == o;
    forall v | v in Values(s) ensures v in Values(t) {
      var i :| 0 <= i < |s| && s[i].value == v;
      assert t[i] == s[i];
    }
  }

  /** The options with every option dropped whose value an earlier option already has. */
  function Dedup(s: seq<ComboOption>): seq<ComboOption>
  {
    if s == [] then []
    else
      var prefix, last := s[..|s| - 1], s[|s| - 1];
      Dedup(prefix) + (if last.value in Values(prefix) then [] else [last])
  }

  /** `uniqueOptions`: the `filter` whose callback keeps a `seen` set of values. */
  method UniqueOptions(options: seq<ComboOption>) returns (unique: seq<ComboOption>)
    ensures unique == Dedup(options)
  {
    var seen: set<string> := {};
    unique := [];
    var i := 0;
    while i < |options|
      invariant 0 <= i <= |options|
      invariant unique == Dedup(options[..i])
      invariant seen == Values(options[..i])
    {
      var opt := options[i];
      assert options[..i + 1] == options[..i] + [opt];
      assert options[..i + 1][..i] == options[..i];
      ValuesSnoc(options[..i], opt);
      if opt.value !in seen {
        seen := seen + {opt.value};
        unique := unique + [opt];
      }
      i := i + 1;
    }
    assert options[..|options|] == options;
  }

  predicate Distinct(s: seq<ComboOption>)
  {
    forall a, b :: 0 <= a < b < |s| ==> s[a].value != s[b].value
  }

  /** No two listed options share a value, and every value of the input is listed. */
  lemma {:induction false} DedupDistinct(s: seq<ComboOption>)
    ensures Distinct(Dedup(s))
    ensures Values(Dedup(s)) == Values(s)
  {
    if s != [] {
      var prefix, last := s[..|s| - 1], s[|s| - 1];
      assert s == prefix + [last];
      DedupDistinct(prefix);
      ValuesSnoc(prefix, last);
      if last.value in Values(prefix) {
        assert Dedup(s) == Dedup(prefix);
      } else {
        ValuesSnoc(Dedup(prefix), last);
        var r := Dedup(s);
        assert r == Dedup(prefix) + [last];
        forall a, b | 0 <= a < b < |r| ensures r[a].value != r[b].value {
          if b == |r| - 1 {
            assert r[a] == Dedup(prefix)[a];
            assert r[a].value in Values(Dedup(prefix));
          } else {
            assert r[a] == Dedup(prefix)[a] && r[b] == Dedup(prefix)[b];
          }
        }
      }
    }
  }

  /** `a` is an order-preserving subsequence of `b`. */
  predicate Subsequence(a: seq<ComboOption>, b: seq<ComboOption>)
    decreases |b|
  {
    if a == [] then true
    else if b == [] then false
    else if a[|a| - 1] == b[|b| - 1] then Subsequence(a[..|a| - 1], b[..|b| - 1])
    else Subsequence(a, b[..|b| - 1])
  }

  lemma {:induction false} SubsequenceOfPrefix(a: seq<ComboOption>, b: seq<ComboOption>, x: ComboOption)
    requires Subsequence(a, b)
    ensures Subsequence(a, b + [x])
    decreases |b|, 2
  {
    var t := b + [x];
    assert t[..|t| - 1] == b;
    if a != [] && a[|a| - 1] == x {
      SubsequenceDropLast(a, b);
    }
  }

  lemma {:induction false} SubsequenceDropLast(a: seq<ComboOption>, b: seq<ComboOption>)
    requires a != [] && Subsequence(a, b)
    ensures Subsequence(a[..|a| - 1], b)
    decreases |b|, 1
  {
    var b', y := b[..|b| - 1], b[|b| - 1];
    assert b' + [y] == b;
    if a[|a| - 1] == y {
      SubsequenceOfPrefix(a[..|a| - 1], b', y);
    } else {
      SubsequenceDropLast(a, b');
      SubsequenceOfPrefix(a[..|a| - 1], b', y);
    }
  }

  /** The listed options keep their relative order from the input. */
  lemma {:induction false} DedupSubsequence(s: seq<ComboOption>)
    ensures Subsequence(Dedup(s), s)
  {
    if s != [] {
      var prefix, last := s[..|s| - 1], s[|s| - 1];
      DedupSubsequence(prefix);
      var r := Dedup(s);
      assert prefix + [last] == s;
      if last.value in Values(prefix) {
        assert r == Dedup(prefix);
        SubsequenceOfPrefix(Dedup(prefix), prefix, last);
      } else {
        assert r == Dedup(prefix) + [last];
        assert r[..|r| - 1] == Dedup(prefix) && r[|r| - 1] == last;
      }
    }
  }

  lemma {:induction false} DedupOfDistinct(s: seq<ComboOption>)
    requires Distinct(s)
    ensures Dedup(s) == s
  {
    if s != [] {
      var prefix, last := s[..|s| - 1], s[|s| - 1];
      assert Distinct(prefix);
      DedupOfDistinct(prefix);
      forall i | 0 <= i < |prefix| ensures prefix[i].value != last.value {
        assert prefix[i] == s[i];
      }
      assert last.value !in Values(prefix);
      assert prefix + [last] == s;
    }
  }

  /** De-duplicating twice gives what de-duplicating once gives. */
  lemma DedupIdempotent(s: seq<ComboOption>)
    ensures Dedup(Dedup(s)) == Dedup(s)
  {
    DedupDistinct(s);
    DedupOfDistinct(Dedup(s));
  }

  function ValueIs(v: string): ComboOption -> bool
  {
    (o: ComboOption) => o.value == v
  }

  lemma FindValuePresent(s: seq<ComboOption>, v: string)
    ensures v in Values(s) <==> Find(s, ValueIs(v)).Some?
  {
    if v in Values(s) {
      var i :| 0 <= i < |s| && s[i].value == v;
      assert ValueIs(v)(s[i]);
    }
  }

  /** For every value, the option listed is the first input option with that value. */
  lemma {:induction false} DedupKeepsFirst(s: seq<ComboOption>, v: string)
    ensures Find(Dedup(s), ValueIs(v)) == Find(s, ValueIs(v))
  {
    if s != [] {
      var prefix, last := s[..|s| - 1], s[|s| - 1];
      assert prefix + [last] == s;
      DedupKeepsFirst(prefix, v);
      FindSnoc(prefix, last, ValueIs(v));
      if last.value in Values(prefix) {
        assert Dedup(s) == Dedup(prefix);
        FindValuePresent(prefix, v);
      } else {
        assert Dedup(s) == Dedup(prefix) + [last];
        FindSnoc(Dedup(prefix), last, ValueIs(v));
      }
    }
  }

  /** The text on the trigger: the placeholder (or "Select Value") when no value is set,
      otherwise the label of the first option with that value; None when no option has it,
      so that the trigger shows nothing. */
  function TriggerLabel(value: string, options: seq<ComboOption>, placeholder: Option<string>): (r: Option<string>)
    ensures value == "" ==> r == Some(if placeholder.Some? && placeholder.value != "" then placeholder.value else "Select Value")
    ensures value != "" ==> (r.None? <==> value !in Values(options))
    ensures value != "" && r.Some? ==>
      exists i :: 0 <= i < |options| && options[i].value == value && options[i].labelText == r.value &&
                  forall j :: 0 <= j < i ==> options[j].value != value
  {
    if value == "" then Some(if placeholder.Some? && placeholder.value != "" then placeholder.value else "Select Value")
    else
      var found := Find(options, ValueIs(value));
      FindValuePresent(options, value);
      match found
      case Some(o) => Some(o.labelText)
      case None => None
  }

  /** The trigger looks the value up in the raw options, the list shows the de-duplicated ones;
      both find the same option, so the trigger's label is the one of the listed option. */
  lemma TriggerAgreesWithList(value: string, options: seq<ComboOption>, placeholder: Option<string>)
    ensures TriggerLabel(value, Dedup(options), placeholder) == TriggerLabel(value, options, placeholder)
  {
    DedupKeepsFirst(options, value);
  }

  /** The check mark is on at most one listed option. */
  lemma AtMostOneChecked(value: string, options: seq<ComboOption>)
    ensures forall a, b :: 0 <= a < b < |Dedup(options)| ==> !(Dedup(options)[a].value == value && Dedup(options)[b].value == value)
  {
    DedupDistinct(options);
  }
}
