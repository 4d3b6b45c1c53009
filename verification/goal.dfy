/** The goal normaliser of `generate_training_plans`: a user's `goal` field,
    whatever its shape, becomes one non-empty display string. */
module Goal {
  import opened Text

  /** "Improve badminton skills", the fallback display goal. */
  const DefaultGoal: string := "Cải thiện kỹ năng cầu lông"

  /** The characters a string goal loses at both ends: brackets, quotes, space. */
  const GoalStripChars: set<char> := {'[', ']', '\'', '"', ' '}

  /** The shapes a stored `goal` takes: no key at all, a string, a list of
      strings, or anything else (`null`, a number, an object). */
  datatype RawGoal = Absent | Str(s: string) | List(items: seq<string>) | Other

  /** The list items Python keeps in `[... for item in raw_goal if item]`. */
  function Truthy(items: seq<string>): (r: seq<string>)
    ensures |r| <= |items|
    ensures forall k :: 0 <= k < |r| ==> r[k] != []
    ensures (forall k :: 0 <= k < |items| ==> items[k] == []) <==> r == []
  {
    if |items| == 0 then []
    else (if items[0] == [] then [] else [items[0]]) + Truthy(items[1..])
  }

  /** `str(item).strip()` applied to every item, order kept. */
  function StripEach(items: seq<string>): (r: seq<string>)
    ensures |r| == |items|
    ensures forall k :: 0 <= k < |r| ==> r[k] == Strip(items[k], Whitespace)
  {
    if |items| == 0 then [] else [Strip(items[0], Whitespace)] + StripEach(items[1..])
  }

  /** The goal before the empty-string fallback: `clean_goal` after the
      `isinstance` branches. A missing key reads as the default string,
      which then goes through the string branch. */
  function Clean(g: RawGoal): (r: string)
    ensures g.Absent? || g.Other? ==> r == DefaultGoal
    ensures g.Str? ==> r == [] || (r[0] !in GoalStripChars && r[|r| - 1] !in GoalStripChars)
    ensures g.List? ==> (r == [] <==>
      |Truthy(g.items)| == 0 || (|Truthy(g.items)| == 1 && Strip(Truthy(g.items)[0], Whitespace) == []))
  {
    match g
    case Absent =>
      DefaultIsClean();
      Strip(DefaultGoal, GoalStripChars)
    case Str(s) => Strip(s, GoalStripChars)
    case List(items) =>
      JoinEmptyIff(", ", StripEach(Truthy(items)));
      Join(", ", StripEach(Truthy(items)))
    case Other => DefaultGoal
  }

  /** The normalised goal: `clean_goal` after the final emptiness check. */
  function Normalise(g: RawGoal): (r: string)
    ensures r != []
    ensures g.Absent? || g.Other? ==> r == DefaultGoal
    ensures (g.Str? || g.List?) && Clean(g) != [] ==> r == Clean(g)
    ensures r == DefaultGoal || r == Clean(g)
  {
    var c := Clean(g);
    if c == [] then DefaultGoal else c
  }

  /** The fallback is used exactly when the goal is absent, of another type,
      or cleans to the empty string (or to the fallback text itself). */
  lemma DefaultIff(g: RawGoal)
    ensures Normalise(g) == DefaultGoal
        <==> g.Absent? || g.Other? || Clean(g) == [] || Clean(g) == DefaultGoal
  {
    DefaultIsClean();
  }

  /** The fallback text survives the string branch unchanged. */
  lemma DefaultIsClean()
    ensures DefaultGoal[0] !in GoalStripChars && DefaultGoal[|DefaultGoal| - 1] !in GoalStripChars
    ensures Strip(DefaultGoal, GoalStripChars) == DefaultGoal
  {
    assert DefaultGoal[0] == 'C' && DefaultGoal[|DefaultGoal| - 1] == 'g';
    StripUnchanged(DefaultGoal, GoalStripChars);
  }

  /** A string goal loses only brackets, quotes and spaces at its ends: it
      is kept as `s.strip(...)` whenever that is non-empty and is the
      default otherwise; the result neither starts nor ends with a strip
      character, and stripping it again changes nothing. */
  lemma StringGoalEnds(s: string)
    ensures var r := Normalise(Str(s));
      && (Strip(s, GoalStripChars) != [] ==> r == Strip(s, GoalStripChars))
      && (Strip(s, GoalStripChars) == [] ==> r == DefaultGoal)
      && r[0] !in GoalStripChars && r[|r| - 1] !in GoalStripChars
      && Strip(r, GoalStripChars) == r
  {
    var r := Normalise(Str(s));
    if r == DefaultGoal {
      DefaultIsClean();
    } else {
      assert r == Strip(s, GoalStripChars) && r != [];
      StripIdempotent(s, GoalStripChars);
    }
  }

  /** A list goal is the ", "-join of its non-empty items, each with
      surrounding whitespace removed, in list order. */
  lemma ListGoal(items: seq<string>)
    ensures Clean(List(items)) == Join(", ", StripEach(Truthy(items)))
    ensures Clean(List(items)) == [] <==>
      (|Truthy(items)| == 0 || (|Truthy(items)| == 1 && Strip(Truthy(items)[0], Whitespace) == []))
  {
    JoinEmptyIff(", ", StripEach(Truthy(items)));
  }

  /** Appending a non-empty item after at least one non-empty item extends
      the normalised goal by ", " and that item, stripped. */
  lemma {:induction false} ListGoalAppend(items: seq<string>, x: string)
    requires Truthy(items) != [] && x != []
    ensures Clean(List(items + [x])) == Clean(List(items)) + ", " + Strip(x, Whitespace)
  {
    TruthySnoc(items, x);
    StripEachSnoc(Truthy(items), x);
    JoinSnoc(", ", StripEach(Truthy(items)), Strip(x, Whitespace));
  }

  /** An empty item is skipped: appending one changes nothing. */
  lemma ListGoalSkipsEmpty(items: seq<string>)
    ensures Clean(List(items + [[]])) == Clean(List(items))
  {
    TruthySnoc(items, []);
    assert Truthy(items) + [] == Truthy(items);
  }

  /** The filter works item by item, in list order: one more item at the
      end is kept exactly when it is non-empty. */
  lemma {:induction false} TruthySnoc(items: seq<string>, x: string)
    ensures Truthy(items + [x]) == Truthy(items) + (if x == [] then [] else [x])
    decreases |items|
  {
    if |items| == 0 {
      assert items + [x] == [x];
    } else {
      assert (items + [x])[1..] == items[1..] + [x];
      TruthySnoc(items[1..], x);
    }
  }

  lemma StripEachSnoc(items: seq<string>, x: string)
    ensures StripEach(items + [x]) == StripEach(items) + [Strip(x, Whitespace)]
  {
  }

  /** Two goals stored as a list become one comma-separated goal. */
  lemma TwoItemList()
    ensures Normalise(List(["improve endurance", "improve smashes"]))
         == "improve endurance" + ", " + "improve smashes"
  {
    var a := "improve endurance";
    var b := "improve smashes";
    assert 'i' !in Whitespace && 'e' !in Whitespace && 's' !in Whitespace;
    assert a[0] == 'i' && a[|a| - 1] == 'e';
    assert b[0] == 'i' && b[|b| - 1] == 's';
    StripUnchanged(a, Whitespace);
    StripUnchanged(b, Whitespace);
    TwoItems(a, b);
  }

  /** A list of two non-empty items that need no stripping becomes
      "first, second". */
  lemma {:induction false} TwoItems(a: string, b: string)
    requires a != [] && b != []
    requires Strip(a, Whitespace) == a && Strip(b, Whitespace) == b
    ensures Normalise(List([a, b])) == a + ", " + b
  {
    TruthySnoc([a], b);
    TruthySnoc([], a);
    assert [a] + [b] == [a, b];
    assert Truthy([a, b]) == [a, b];
    StripEachSnoc([a], b);
    assert StripEach([a, b]) == [a, b];
    JoinSnoc(", ", [a], b);
    assert Clean(List([a, b])) == a + ", " + b;
  }
}
