/**
 The list of wanted styles, as Select Graphic Rendition (section 8.3.117 of ECMA-48) edits it.
 */
module Sgr {
  import opened Options
  import Styles

  datatype Property = FontWeight | TextDecoration | Color | BackgroundColor

  function Name(p: Property): string {
    match p
    case FontWeight => "font-weight:"
    case TextDecoration => "text-decoration:"
    case Color => "color:"
    case BackgroundColor => "background-color:"
  }

  function Entry(p: Property, value: string): string {
    Name(p) + " " + value
  }

  predicate StartsWith(s: string, prefix: string) {
    prefix <= s
  }

  // The entries of one property, and the others, in order.
  function EntriesOf(styles: seq<string>, p: Property): seq<string> {
    if styles == [] then []
    else
      var last := styles[|styles| - 1];
      EntriesOf(styles[..|styles| - 1], p) + if StartsWith(last, Name(p)) then [last] else []
  }

  function Without(styles: seq<string>, name: string): seq<string> {
    if styles == [] then []
    else
      var last := styles[|styles| - 1];
      Without(styles[..|styles| - 1], name) + if StartsWith(last, name) then [] else [last]
  }

  lemma {:induction false} WithoutConcat(a: seq<string>, b: seq<string>, name: string)
    ensures Without(a + b, name) == Without(a, name) + Without(b, name)
    decreases |b|
  {
    if b == [] {
      assert a + b == a;
    } else {
      assert (a + b)[..|a + b| - 1] == a + b[..|b| - 1];
      WithoutConcat(a, b[..|b| - 1], name);
    }
  }

  lemma {:induction false} WithoutSubset(styles: seq<string>, name: string)
    ensures forall d :: d in Without(styles, name) ==> d in styles
    decreases |styles|
  {
    if styles != [] {
      WithoutSubset(styles[..|styles| - 1], name);
    }
  }

  // pushSimpleStyle: any entry of the property goes, and the new one comes last.
  method PushSimpleStyle(styles: seq<string>, name: string, value: Option<string>) returns (r: seq<string>)
    ensures r == Without(styles, name) + if value.Some? then [name + " " + value.value] else []
  {
    hide Without;
    r := styles;
    var nstyles := |r|;
    var i := 0;
    assert r[..0] == [];
    WithoutNothing(name);
    while i < nstyles
      invariant i <= nstyles == |r|
      invariant Without(styles, name) == Without(r, name)
      invariant Without(r[..i], name) == r[..i]
    {
      WithoutOne(r, i, name);
      if StartsWith(r[i], name) {
        ghost var front := r[..i];
        r := r[..i] + r[i + 1..];
        assert r[..i] == front;
        nstyles := nstyles - 1;
      } else {
        i := i + 1;
      }
    }
    assert r[..i] == r;
    if value.Some? {
      r := r + [name + " " + value.value];
    }
  }

  lemma WithoutNothing(name: string)
    ensures Without([], name) == []
  {
  }

  lemma WithoutOne(r: seq<string>, i: nat, name: string)
    requires i < |r|
    ensures StartsWith(r[i], name) ==> Without(r, name) == Without(r[..i] + r[i + 1..], name)
    ensures !StartsWith(r[i], name) ==> Without(r[..i + 1], name) == Without(r[..i], name) + [r[i]]
    ensures r[..i + 1] == r[..i] + [r[i]]
  {
    assert r[..i + 1][..i] == r[..i];
    assert r == r[..i + 1] + r[i + 1..];
    WithoutConcat(r[..i + 1], r[i + 1..], name);
    WithoutConcat(r[..i], r[i + 1..], name);
  }

  // What one parameter sets or, with no value, puts back to its default, in order.  The colours
  // of reverse video are the terminal's default background and foreground.
  function Assignments(val: int): seq<(Property, Option<string>)> {
    if val == 1 then [(FontWeight, Some("bold"))]
    else if val == 22 then [(FontWeight, None)]
    else if val == 4 then [(TextDecoration, Some("underline"))]
    else if val == 24 then [(TextDecoration, None)]
    else if val == 7 then [(Color, Some("white")), (BackgroundColor, Some("black"))]
    else if val == 27 then [(Color, None), (BackgroundColor, None)]
    else if 30 <= val <= 37 then [(Color, Some(ColorName(val - 30)))]
    else if val == 39 then [(Color, None)]
    else if 40 <= val <= 47 then [(BackgroundColor, Some(ColorName(val - 40)))]
    else if val == 49 then [(BackgroundColor, None)]
    else []
  }

  function ColorName(n: int): string
    requires 0 <= n < 8
  {
    ["black", "red", "green", "yellow", "blue", "magenta", "cyan", "white"][n]
  }

  function Push(styles: seq<string>, p: Property, value: Option<string>): seq<string> {
    Without(styles, Name(p)) + if value.Some? then [Entry(p, value.value)] else []
  }

  function PushAll(styles: seq<string>, todo: seq<(Property, Option<string>)>): seq<string>
    decreases |todo|
  {
    if todo == [] then styles
    else
      var (p, value) := todo[|todo| - 1];
      Push(PushAll(styles, todo[..|todo| - 1]), p, value)
  }

  // One parameter: zero, or an omitted one, clears everything.
  function Apply(styles: seq<string>, val: int): seq<string> {
    if val <= 0 then [] else PushAll(styles, Assignments(val))
  }

  function Run(styles: seq<string>, codes: seq<int>): seq<string>
    decreases |codes|
  {
    if codes == [] then styles
    else Apply(Run(styles, codes[..|codes| - 1]), codes[|codes| - 1])
  }

  // The `m` branch of handleControlSequence for one parameter.
  method ApplyParameter(styles: seq<string>, val: int) returns (r: seq<string>)
    ensures r == Apply(styles, val)
  {
    if val <= 0 {
      return [];
    }
    r := styles;
    var todo := Assignments(val);
    var i := 0;
    assert todo[..0] == [];
    while i < |todo|
      invariant i <= |todo|
      invariant r == PushAll(styles, todo[..i])
    {
      assert todo[..i + 1][..i] == todo[..i];
      r := PushSimpleStyle(r, Name(todo[i].0), todo[i].1);
      i := i + 1;
    }
    assert todo[..i] == todo;
  }

  // ---------- Last write wins ----------

  // What a list of assignments leaves for a property it mentions.
  function Written(todo: seq<(Property, Option<string>)>, p: Property): Option<Option<string>>
    decreases |todo|
  {
    if todo == [] then None
    else if todo[|todo| - 1].0 == p then Some(todo[|todo| - 1].1)
    else Written(todo[..|todo| - 1], p)
  }

  // The value last given to a property, reading the parameters backwards; none after a clear
  // or a return to the default.
  function LastWrite(codes: seq<int>, p: Property): Option<string>
    decreases |codes|
  {
    if codes == [] then None
    else
      var val := codes[|codes| - 1];
      if val <= 0 then None
      else
        match Written(Assignments(val), p)
        case Some(value) => value
        case None => LastWrite(codes[..|codes| - 1], p)
  }

  function Listed(p: Property, value: Option<string>): seq<string> {
    if value.Some? then [Entry(p, value.value)] else []
  }

  lemma NamesDiffer(s: string, p: Property, q: Property)
    requires StartsWith(s, Name(p)) && StartsWith(s, Name(q))
    ensures p == q
  {
    assert s[0] == Name(p)[0] == Name(q)[0];
  }

  lemma {:induction false} EntriesWithout(styles: seq<string>, p: Property, q: Property)
    ensures EntriesOf(Without(styles, Name(q)), p) == if p == q then [] else EntriesOf(styles, p)
    decreases |styles|
  {
    if styles != [] {
      var front, last := styles[..|styles| - 1], styles[|styles| - 1];
      EntriesWithout(front, p, q);
      if StartsWith(last, Name(q)) {
        if StartsWith(last, Name(p)) {
          NamesDiffer(last, p, q);
        }
        assert Without(styles, Name(q)) == Without(front, Name(q));
      } else {
        assert (Without(front, Name(q)) + [last])[..|Without(front, Name(q))|] == Without(front, Name(q));
      }
    }
  }

  lemma EntriesOfPush(styles: seq<string>, p: Property, q: Property, value: Option<string>)
    ensures EntriesOf(Push(styles, q, value), p) == if p == q then Listed(p, value) else EntriesOf(styles, p)
  {
    EntriesWithout(styles, p, q);
    var kept := Without(styles, Name(q));
    if value.Some? {
      var entry := Entry(q, value.value);
      assert (kept + [entry])[..|kept|] == kept;
      assert StartsWith(entry, Name(q));
      if StartsWith(entry, Name(p)) {
        NamesDiffer(entry, p, q);
      }
    } else {
      assert kept + [] == kept;
    }
  }

  lemma {:induction false} EntriesOfPushAll(styles: seq<string>, todo: seq<(Property, Option<string>)>, p: Property)
    ensures EntriesOf(PushAll(styles, todo), p) ==
            match Written(todo, p) { case Some(value) => Listed(p, value) case None => EntriesOf(styles, p) }
    decreases |todo|
  {
    if todo != [] {
      var front := todo[..|todo| - 1];
      EntriesOfPushAll(styles, front, p);
      EntriesOfPush(PushAll(styles, front), p, todo[|todo| - 1].0, todo[|todo| - 1].1);
    }
  }

  // After any run of parameters, each property has one entry, with the value last written to
  // it, or no entry if it was last put back to its default.
  lemma {:induction false} LastWriteWins(codes: seq<int>, p: Property)
    ensures EntriesOf(Run([], codes), p) == Listed(p, LastWrite(codes, p))
    decreases |codes|
  {
    if codes != [] {
      var front := codes[..|codes| - 1];
      LastWriteWins(front, p);
      EntriesOfPushAll(Run([], front), Assignments(codes[|codes| - 1]), p);
    }
  }

  // ---------- What the codes do ----------

  lemma {:induction false} WithoutIs(styles: seq<string>, name: string)
    ensures forall d :: d in Without(styles, name) <==> d in styles && !(name <= d)
    decreases |styles|
  {
    if styles != [] {
      var front, last := styles[..|styles| - 1], styles[|styles| - 1];
      WithoutIs(front, name);
      assert styles == front + [last];
    }
  }

  lemma RunOne(styles: seq<string>, val: int)
    ensures Run(styles, [val]) == Apply(styles, val)
    ensures Run(styles, []) == styles
  {
    assert [val][..0] == [];
  }

  lemma RunTwo(styles: seq<string>, first: int, second: int)
    ensures Run(styles, [first, second]) == Apply(Apply(styles, first), second)
  {
    assert [first, second][..1] == [first];
    RunOne(styles, first);
  }

  // A code that is about one property.
  lemma Single(styles: seq<string>, val: int, p: Property, value: Option<string>)
    requires val > 0 && Assignments(val) == [(p, value)]
    ensures Run(styles, [val]) == Apply(styles, val) == Push(styles, p, value)
    ensures value == None ==> Run(styles, [val]) == Without(styles, Name(p))
  {
    RunOne(styles, val);
    PushLast(styles, [], p, value);
    assert [] + [(p, value)] == [(p, value)];
    assert Without(styles, Name(p)) + [] == Without(styles, Name(p));
  }

  lemma PushLast(styles: seq<string>, todo: seq<(Property, Option<string>)>, p: Property, value: Option<string>)
    ensures PushAll(styles, todo + [(p, value)]) == Push(PushAll(styles, todo), p, value)
  {
    assert (todo + [(p, value)])[..|todo|] == todo;
  }

  lemma Double(styles: seq<string>, val: int, p: Property, v: Option<string>, q: Property, w: Option<string>)
    requires val > 0 && Assignments(val) == [(p, v), (q, w)]
    ensures Run(styles, [val]) == Apply(styles, val) == Push(Push(styles, p, v), q, w)
  {
    RunOne(styles, val);
    PushLast(styles, [], p, v);
    PushLast(styles, [(p, v)], q, w);
    assert [] + [(p, v)] == [(p, v)] && [(p, v)] + [(q, w)] == [(p, v), (q, w)];
  }

  // Bold and underlined text, and their ends.
  lemma BoldAndUnderline(styles: seq<string>)
    ensures Run(styles, [1]) == Without(styles, "font-weight:") + ["font-weight: bold"]
    ensures Run(styles, [22]) == Without(styles, "font-weight:")
    ensures Run(styles, [4]) == Without(styles, "text-decoration:") + ["text-decoration: underline"]
    ensures Run(styles, [24]) == Without(styles, "text-decoration:")
  {
    hide Without, Run, Apply;
    assert Entry(FontWeight, "bold") == "font-weight: bold" && Entry(TextDecoration, "underline") == "text-decoration: underline";
    Single(styles, 1, FontWeight, Some("bold"));
    Single(styles, 22, FontWeight, None);
    Single(styles, 4, TextDecoration, Some("underline"));
    Single(styles, 24, TextDecoration, None);
  }

  // The eight colours, as foreground and as background, and the defaults.
  lemma Colours(styles: seq<string>, n: nat)
    requires n < 8
    ensures var colour := if n == 0 then "black" else if n == 1 then "red" else if n == 2 then "green" else if n == 3 then "yellow"
                          else if n == 4 then "blue" else if n == 5 then "magenta" else if n == 6 then "cyan" else "white";
            && Run(styles, [30 + n]) == Without(styles, "color:") + ["color: " + colour]
            && Run(styles, [40 + n]) == Without(styles, "background-color:") + ["background-color: " + colour]
    ensures Run(styles, [39]) == Without(styles, "color:")
    ensures Run(styles, [49]) == Without(styles, "background-color:")
  {
    hide Without, Run, Apply;
    var colour := ColorName(n);
    assert "color:" + " " == "color: " && "background-color:" + " " == "background-color: ";
    Single(styles, 30 + n, Color, Some(colour));
    Single(styles, 40 + n, BackgroundColor, Some(colour));
    Single(styles, 39, Color, None);
    Single(styles, 49, BackgroundColor, None);
  }

  // Reverse video and its end.
  lemma ReverseVideo(styles: seq<string>)
    ensures Run(styles, [7]) ==
            Without(Without(styles, "color:") + ["color: white"], "background-color:") + ["background-color: black"]
    ensures Run(styles, [27]) == Without(Without(styles, "color:"), "background-color:")
  {
    hide Without, Run, Apply;
    assert Entry(Color, "white") == "color: white" && Entry(BackgroundColor, "black") == "background-color: black";
    Double(styles, 7, Color, Some("white"), BackgroundColor, Some("black"));
    Double(styles, 27, Color, None, BackgroundColor, None);
    assert Without(styles, "color:") + [] == Without(styles, "color:");
  }

  // Zero or nothing clears the list; any other code changes nothing.
  lemma OtherCodes(styles: seq<string>, val: int)
    ensures val <= 0 ==> Run(styles, [val]) == []
    ensures val > 0 && val !in {1, 4, 7, 22, 24, 27, 39, 49} && !(30 <= val <= 37) && !(40 <= val <= 47) ==>
              Run(styles, [val]) == styles
  {
    RunOne(styles, val);
  }

  // A code touches no entries but those of its own property, or of the two colours.
  lemma OthersStay(styles: seq<string>, val: int, p: Property)
    requires val > 0
    requires match p
             case FontWeight => val != 1 && val != 22
             case TextDecoration => val != 4 && val != 24
             case Color => val !in {7, 27, 39} && !(30 <= val <= 37)
             case BackgroundColor => val !in {7, 27, 49} && !(40 <= val <= 47)
    ensures EntriesOf(Run(styles, [val]), p) == EntriesOf(styles, p)
  {
    hide Run, EntriesOf, Apply, PushAll, Written;
    RunOne(styles, val);
    ApplyIs(styles, val);
    EntriesOfPushAll(styles, Assignments(val), p);
    var todo := Assignments(val);
    NotWritten(todo, p);
    assert forall i :: 0 <= i < |todo| ==> todo[i].0 != p;
  }

  lemma ApplyIs(styles: seq<string>, val: int)
    requires val > 0
    ensures Apply(styles, val) == PushAll(styles, Assignments(val))
  {
  }

  lemma {:induction false} NotWritten(todo: seq<(Property, Option<string>)>, p: Property)
    ensures (forall i :: 0 <= i < |todo| ==> todo[i].0 != p) ==> Written(todo, p) == None
    decreases |todo|
  {
    if todo != [] {
      NotWritten(todo[..|todo| - 1], p);
    }
  }

  lemma {:induction false} WithoutTwice(styles: seq<string>, name: string, value: string)
    requires name <= value
    ensures Without(Without(styles, name) + [value], name) == Without(styles, name)
    ensures Without(Without(styles, name), name) == Without(styles, name)
  {
    WithoutConcat(Without(styles, name), [value], name);
    WithoutAgain(styles, name);
    assert [value][..0] == [] && Without([value], name) == [];
  }

  lemma {:induction false} WithoutAgain(styles: seq<string>, name: string)
    ensures Without(Without(styles, name), name) == Without(styles, name)
    decreases |styles|
  {
    if styles != [] {
      var front, last := styles[..|styles| - 1], styles[|styles| - 1];
      WithoutAgain(front, name);
      assert styles == front + [last];
      WithoutSnoc(front, last, name);
      WithoutSnoc(Without(front, name), last, name);
    }
  }

  // Each end undoes its code, whatever the list was before: it is then as after the end alone.
  lemma Undone(styles: seq<string>, n: nat)
    requires n < 8
    ensures Run(styles, [1, 22]) == Run(styles, [22]) && Run(styles, [4, 24]) == Run(styles, [24])
    ensures Run(styles, [30 + n, 39]) == Run(styles, [39]) && Run(styles, [40 + n, 49]) == Run(styles, [49])
  {
    hide Without, Run, Apply;
    UndoneBy(styles, 1, 22, FontWeight, "bold");
    UndoneBy(styles, 4, 24, TextDecoration, "underline");
    UndoneBy(styles, 30 + n, 39, Color, ColorName(n));
    UndoneBy(styles, 40 + n, 49, BackgroundColor, ColorName(n));
  }

  lemma UndoneBy(styles: seq<string>, val: int, end: int, p: Property, value: string)
    requires val > 0 && Assignments(val) == [(p, Some(value))]
    requires end > 0 && Assignments(end) == [(p, None)]
    ensures Run(styles, [val, end]) == Run(styles, [end])
  {
    hide Without, Run, Apply;
    RunTwo(styles, val, end);
    Single(styles, val, p, Some(value));
    Single(styles, end, p, None);
    RunOne(Push(styles, p, Some(value)), end);
    Single(Push(styles, p, Some(value)), end, p, None);
    WithoutTwice(styles, Name(p), Entry(p, value));
  }

  // The end of reverse video undoes it.
  lemma ReverseUndone(styles: seq<string>)
    ensures Run(styles, [7, 27]) == Run(styles, [27])
  {
    ReverseVideo(styles);
    hide Without, Run, Apply;
    RunOne(styles, 7);
    RunTwo(styles, 7, 27);
    RunOne(Run(styles, [7]), 27);
    ReverseVideo(Run(styles, [7]));
    ReverseForgotten(styles);
  }

  lemma ReverseForgotten(styles: seq<string>)
    ensures var color, background := "color:", "background-color:";
            var reversed := Without(Without(styles, color) + ["color: white"], background) + ["background-color: black"];
            Without(Without(reversed, color), background) == Without(Without(styles, color), background)
  {
    hide Without;
    var color, background := "color:", "background-color:";
    var a := Without(styles, color) + ["color: white"];
    WithoutSwap(Without(a, background) + ["background-color: black"], color, background);
    WithoutTwice(a, background, "background-color: black");
    WithoutSwap(a, background, color);
    WithoutTwice(styles, color, "color: white");
  }

  lemma {:induction false} WithoutSwap(styles: seq<string>, a: string, b: string)
    ensures Without(Without(styles, a), b) == Without(Without(styles, b), a)
    decreases |styles|
  {
    hide Without;
    WithoutNothing(a);
    WithoutNothing(b);
    if styles != [] {
      var front, last := styles[..|styles| - 1], styles[|styles| - 1];
      WithoutSwap(front, a, b);
      assert styles == front + [last];
      WithoutSnoc(front, last, a);
      WithoutSnoc(front, last, b);
      WithoutSnoc(Without(front, a), last, b);
      WithoutSnoc(Without(front, b), last, a);
    }
  }

  lemma WithoutSnoc(styles: seq<string>, d: string, name: string)
    ensures Without(styles + [d], name) == if name <= d then Without(styles, name) else Without(styles, name) + [d]
  {
    assert (styles + [d])[..|styles|] == styles;
  }

  predicate IsEntry(s: string) {
    Styles.IsDeclaration(s) && exists p: Property :: StartsWith(s, Name(p))
  }

  lemma EntryIsDeclaration(p: Property, value: string)
    requires Styles.IsDeclaration(value)
    ensures IsEntry(Entry(p, value))
  {
    var s := Entry(p, value);
    assert s[0] == Name(p)[0] && s[|s| - 1] == value[|value| - 1];
    assert StartsWith(s, Name(p));
  }

  lemma AssignmentsDeclare(val: int)
    ensures forall i :: 0 <= i < |Assignments(val)| && Assignments(val)[i].1.Some? ==>
              Styles.IsDeclaration(Assignments(val)[i].1.value)
  {
  }

  lemma {:induction false} PushAllEntries(styles: seq<string>, todo: seq<(Property, Option<string>)>)
    requires forall s :: s in styles ==> IsEntry(s)
    requires forall i :: 0 <= i < |todo| && todo[i].1.Some? ==> Styles.IsDeclaration(todo[i].1.value)
    ensures forall s :: s in PushAll(styles, todo) ==> IsEntry(s)
    decreases |todo|
  {
    if todo != [] {
      var front := todo[..|todo| - 1];
      var (p, value) := todo[|todo| - 1];
      PushAllEntries(styles, front);
      WithoutSubset(PushAll(styles, front), Name(p));
      if value.Some? {
        EntryIsDeclaration(p, value.value);
      }
    }
  }

  // Nothing but entries of these properties is ever listed, each a proper declaration.
  lemma ApplyEntries(styles: seq<string>, val: int)
    requires forall s :: s in styles ==> IsEntry(s)
    ensures forall s :: s in Apply(styles, val) ==> IsEntry(s)
  {
    AssignmentsDeclare(val);
    PushAllEntries(styles, Assignments(val));
  }
}
