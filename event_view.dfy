/** The calendar event view (src/components/Calendar/EventView.js): the
    ingredient and instruction lists it reads out of the event's comma- and
    period-separated text, and its completed flag. */
module EventView {
  import opened Text
  import opened Js

  /** `event.ingredients.split(',').map(ing => ing.trim())`. */
  function ParseIngredients(s: string): (r: seq<string>)
    ensures |r| == |Split(s, ',')|
    ensures forall k :: 0 <= k < |r| ==> r[k] == Trim(Split(s, ',')[k])
  {
    var parts := Split(s, ',');
    seq(|parts|, k requires 0 <= k < |parts| => Trim(parts[k]))
  }

  /** There is one item per comma plus one: empty pieces are kept. */
  lemma IngredientCount(s: string)
    ensures |ParseIngredients(s)| == Count(s, ',') + 1
  {
    SplitCount(s, ',');
  }

  /** `items` with `p` before the first one and a space before each other one:
      the pieces of `items.join(', ')` split on ','. */
  function Spaced(items: seq<string>, p: string): (r: seq<string>)
    ensures |r| == |items|
  {
    seq(|items|, k requires 0 <= k < |items| => (if k == 0 then p else " ") + items[k])
  }

  lemma {:induction false} JoinSpaced(items: seq<string>, p: string, sep: string, c: char)
    requires |items| >= 1 && sep == [c, ' ']
    ensures p + Join(items, sep) == Join(Spaced(items, p), [c])
  {
    var sp := Spaced(items, p);
    if |items| == 1 {
      assert sp == [p + items[0]];
    } else {
      var rest := items[1..];
      JoinSpaced(rest, " ", sep, c);
      assert sp[1..] == Spaced(rest, " ");
      calc {
        p + Join(items, sep);
        p + (items[0] + sep + Join(rest, sep));
        (p + items[0]) + [c] + (" " + Join(rest, sep));
        sp[0] + [c] + Join(sp[1..], [c]);
      }
    }
  }

  /** `items.join(c + ' ')` is the join on `c` of the items each but the first
      behind a space. */
  lemma JoinSpacedPlain(items: seq<string>, sep: string, c: char)
    requires |items| >= 1 && sep == [c, ' ']
    ensures Join(items, sep) == Join(Spaced(items, ""), [c])
  {
    JoinSpaced(items, "", sep, c);
    var text := Join(items, sep);
    assert "" + text == text;
  }

  lemma AppendEmptyPiece(parts: seq<string>, c: char)
    requires forall k :: 0 <= k < |parts| ==> c !in parts[k]
    ensures forall k :: 0 <= k < |parts + [""]| ==> c !in (parts + [""])[k]
  {
  }

  /** Trimming a trimmed string behind one space gives the string. */
  lemma TrimLeadingSpace(x: string)
    requires IsTrimmed(x)
    ensures Trim(" " + x) == x
  {
    var s := " " + x;
    assert s[1..] == x;
    assert TrimStart(x) == x;
    assert TrimStart(s) == x;
    assert TrimEnd(x) == x;
  }

  /** Each piece of `items` joined with a space after the separator trims back
      to its item and holds no separator. */
  lemma SpacedPieces(items: seq<string>, sep: char)
    requires sep != ' '
    requires forall k :: 0 <= k < |items| ==> sep !in items[k] && IsTrimmed(items[k])
    ensures forall k :: 0 <= k < |items| ==> sep !in Spaced(items, "")[k] && Trim(Spaced(items, "")[k]) == items[k]
  {
    var sp := Spaced(items, "");
    forall k | 0 <= k < |items|
      ensures sep !in sp[k] && Trim(sp[k]) == items[k]
    {
      if k == 0 {
        assert sp[k] == items[k];
        TrimmedIsFixed(items[k]);
      } else {
        TrimLeadingSpace(items[k]);
      }
    }
  }

  /** Listing trimmed, comma-free ingredients as `a, b, c` and parsing the
      text gives the same list back. */
  lemma IngredientsRoundTrip(items: seq<string>)
    requires |items| >= 1
    requires forall k :: 0 <= k < |items| ==> ',' !in items[k] && IsTrimmed(items[k])
    ensures ParseIngredients(Join(items, ", ")) == items
  {
    var sp := Spaced(items, "");
    var text := Join(items, ", ");
    JoinSpacedPlain(items, ", ", ',');
    SpacedPieces(items, ',');
    SplitJoin(sp, ',');
    ParsedAs(text, items);
  }

  lemma ParsedAs(s: string, items: seq<string>)
    requires |Split(s, ',')| == |items|
    requires forall k :: 0 <= k < |items| ==> Trim(Split(s, ',')[k]) == items[k]
    ensures ParseIngredients(s) == items
  {
  }

  /** A character of a trimmed string is a character of the string. */
  lemma TrimIn(s: string, c: char)
    requires c in Trim(s)
    ensures c in s
  {
    var t := TrimStart(s);
    var r := TrimEnd(t);
    assert r == Trim(s) && r == t[..|r|];
    var i :| 0 <= i < |r| && r[i] == c;
    assert t[i] == c;
    assert t == s[|s| - |t|..];
    assert s[|s| - |t| + i] == c;
  }

  /** `pieces.filter(p => p.trim()).map(p => p.trim())`. */
  function Steps(pieces: seq<string>): (r: seq<string>)
    ensures |r| <= |pieces|
    ensures forall k :: 0 <= k < |r| ==> r[k] != [] && IsTrimmed(r[k])
  {
    if pieces == [] then []
    else
      var t := Trim(pieces[0]);
      var rest := Steps(pieces[1..]);
      if t == [] then rest
      else
        StepsCons(t, rest);
        [t] + rest
  }

  lemma StepsCons(t: string, rest: seq<string>)
    requires t != [] && IsTrimmed(t)
    requires forall k :: 0 <= k < |rest| ==> rest[k] != [] && IsTrimmed(rest[k])
    ensures forall k :: 0 <= k < |[t] + rest| ==> ([t] + rest)[k] != [] && IsTrimmed(([t] + rest)[k])
  {
  }

  /** A character that no piece holds is in no step. */
  lemma {:induction false} StepsWithout(pieces: seq<string>, c: char)
    requires forall j :: 0 <= j < |pieces| ==> c !in pieces[j]
    ensures forall k :: 0 <= k < |Steps(pieces)| ==> c !in Steps(pieces)[k]
  {
    if pieces != [] {
      StepsWithout(pieces[1..], c);
      if c in Trim(pieces[0]) {
        TrimIn(pieces[0], c);
      }
    }
  }

  /** `event.instructions.split('.').filter(i => i.trim()).map(i => i.trim())`:
      no step is empty, none has surrounding white space and none holds a '.'. */
  function ParseInstructions(s: string): (r: seq<string>)
    ensures |r| <= Count(s, '.') + 1
    ensures forall k :: 0 <= k < |r| ==> r[k] != [] && IsTrimmed(r[k]) && '.' !in r[k]
  {
    SplitCount(s, '.');
    StepsWithout(Split(s, '.'), '.');
    Steps(Split(s, '.'))
  }

  /** One step of `Steps`: the first piece, trimmed, leads the result
      unless it trims to nothing. */
  lemma StepsUnfold(pieces: seq<string>)
    requires pieces != []
    ensures Steps(pieces) == if Trim(pieces[0]) == [] then Steps(pieces[1..])
                             else [Trim(pieces[0])] + Steps(pieces[1..])
  {
  }

  lemma {:induction false} StepsAppend(a: seq<string>, b: seq<string>)
    ensures Steps(a + b) == Steps(a) + Steps(b)
  {
    if a != [] {
      var ab := a + b;
      assert ab[0] == a[0] && ab[1..] == a[1..] + b;
      StepsAppend(a[1..], b);
      StepsUnfold(ab);
      StepsUnfold(a);
      var t := Trim(a[0]);
      if t != [] {
        assert [t] + (Steps(a[1..]) + Steps(b)) == [t] + Steps(a[1..]) + Steps(b);
      }
    } else {
      assert a + b == b;
    }
  }

  /** Pieces that all trim to something non-empty are all kept, trimmed. */
  lemma {:induction false} StepsAllKept(pieces: seq<string>, steps: seq<string>)
    requires |pieces| == |steps|
    requires forall k :: 0 <= k < |pieces| ==> steps[k] != [] && Trim(pieces[k]) == steps[k]
    ensures Steps(pieces) == steps
  {
    if pieces != [] {
      StepsAllKept(pieces[1..], steps[1..]);
    }
  }

  lemma JoinAppendEmpty(parts: seq<string>, sep: string)
    requires |parts| >= 1
    ensures Join(parts + [""], sep) == Join(parts, sep) + sep
    decreases |parts|
  {
    var all := parts + [""];
    if |parts| == 1 {
      JoinTwo(parts[0], "", sep);
      assert all == [parts[0], ""];
    } else {
      assert all[1..] == parts[1..] + [""];
      JoinAppendEmpty(parts[1..], sep);
    }
  }

  /** Writing steps as sentences, `a. b. c.`, and parsing the text gives the
      steps back: the empty piece after the last '.' is dropped. */
  lemma InstructionsRoundTrip(steps: seq<string>)
    requires |steps| >= 1
    requires forall k :: 0 <= k < |steps| ==> steps[k] != [] && '.' !in steps[k] && IsTrimmed(steps[k])
    ensures ParseInstructions(Join(steps, ". ") + ".") == steps
  {
    SentencesSplit(steps);
    SentencesKept(steps);
  }

  /** The text `a. b. c.` splits at '.' into the steps, each but the first
      behind a space, and a last empty piece. */
  lemma SentencesSplit(steps: seq<string>)
    requires |steps| >= 1
    requires forall k :: 0 <= k < |steps| ==> steps[k] != [] && '.' !in steps[k] && IsTrimmed(steps[k])
    ensures Split(Join(steps, ". ") + ".", '.') == Spaced(steps, "") + [""]
  {
    var sp := Spaced(steps, "");
    JoinSpacedPlain(steps, ". ", '.');
    JoinAppendEmpty(sp, ".");
    SpacedPieces(steps, '.');
    AppendEmptyPiece(sp, '.');
    SplitJoin(sp + [""], '.');
  }

  /** Filtering and trimming those pieces gives the steps. */
  lemma SentencesKept(steps: seq<string>)
    requires |steps| >= 1
    requires forall k :: 0 <= k < |steps| ==> steps[k] != [] && '.' !in steps[k] && IsTrimmed(steps[k])
    ensures Steps(Spaced(steps, "") + [""]) == steps
  {
    var sp := Spaced(steps, "");
    SpacedPieces(steps, '.');
    StepsAllKept(sp, steps);
    StepsAppend(sp, [""]);
    StepsOfBlank();
    assert steps + [] == steps;
  }

  /** A lone empty piece gives no step. */
  lemma StepsOfBlank()
    ensures Steps([""]) == []
  {
    assert Trim("") == [];
  }

  /** What a list section of the view renders. */
  datatype Section = NotShown | Shown(items: seq<string>) | RenderError

  /** `{event.ingredients && (...)}`: a falsy value hides the section; a truthy
      value that is not a string has no `split` and the render throws. */
  function IngredientsSection(v: Value): (r: Section)
    ensures r.NotShown? <==> !Truthy(v)
    ensures r.RenderError? <==> Truthy(v) && !v.Str?
    ensures r.Shown? ==> v.Str? && r.items == ParseIngredients(v.s)
  {
    if !Truthy(v) then NotShown
    else if v.Str? then Shown(ParseIngredients(v.s))
    else RenderError
  }

  /** `{event.instructions && (...)}`, as for the ingredients. */
  function InstructionsSection(v: Value): (r: Section)
    ensures r.NotShown? <==> !Truthy(v)
    ensures r.RenderError? <==> Truthy(v) && !v.Str?
    ensures r.Shown? ==> v.Str? && r.items == ParseInstructions(v.s)
  {
    if !Truthy(v) then NotShown
    else if v.Str? then Shown(ParseInstructions(v.s))
    else RenderError
  }

  /** An empty or absent text hides its section. */
  lemma EmptyTextHidesSection(v: Value)
    requires v == Str("") || v == Null || v == Undefined
    ensures IngredientsSection(v) == NotShown && InstructionsSection(v) == NotShown
  {
    assert !Truthy(v);
  }

  /** The view's `isCompleted` state. */
  class CompletionState {
    var isCompleted: Value

    /** `useState(event.completed)`. */
    constructor (completed: Value)
      ensures isCompleted == completed
    {
      isCompleted := completed;
    }

    /** `{!isCompleted && <button ...>}`. */
    predicate ShowsCompleteButton()
      reads this
    {
      !Truthy(isCompleted)
    }

    /** The status badge: it reads "Completada" exactly when the complete
        button is hidden, and "Pendiente" otherwise. */
    function StatusLabel(): (r: string)
      reads this
      ensures r == "Completada" <==> !ShowsCompleteButton()
      ensures r != "Completada" ==> r == "Pendiente"
    {
      if Truthy(isCompleted) then "Completada" else "Pendiente"
    }

    /** `handleComplete`: `resolved` says whether `onComplete(event.id)`
        resolved; on a rejection the state is kept. */
    method HandleComplete(resolved: bool)
      modifies this
      ensures resolved ==> isCompleted == Bool(true) && !ShowsCompleteButton()
      ensures resolved ==> StatusLabel() == "Completada"
      ensures !resolved ==> isCompleted == old(isCompleted) && StatusLabel() == old(StatusLabel())
    {
      if resolved {
        isCompleted := Bool(true);
      }
    }
  }
}
