/**
 Style declarations: the text of a `style` attribute, the declarations it holds, and how many
 of the enclosing spans agree with the styles wanted at the cursor.
 */
module Styles {

  // String.trim: spaces and control characters go at both ends.
  function TrimStart(s: string): (t: string)
    ensures |t| <= |s| && (t == "" || t[0] > ' ')
    ensures s != "" && s[0] > ' ' ==> t == s
  {
    if s == "" || s[0] > ' ' then s else TrimStart(s[1..])
  }

  function TrimEnd(s: string): (t: string)
    ensures |t| <= |s| && t == s[..|t|] && (t == "" || t[|t| - 1] > ' ')
    ensures s != "" && s[|s| - 1] > ' ' ==> t == s
  {
    if s == "" || s[|s| - 1] > ' ' then s else TrimEnd(s[..|s| - 1])
  }

  function Trim(s: string): (t: string)
    ensures |t| <= |s|
    ensures t == "" || (t[0] > ' ' && t[|t| - 1] > ' ')
    ensures s != "" && s[0] > ' ' && s[|s| - 1] > ' ' ==> t == s
  {
    TrimEnd(TrimStart(s))
  }

  // String.indexOf, with |s| for "not there".
  function IndexOf(s: string, c: char): (k: nat)
    ensures k <= |s| && c !in s[..k] && (k < |s| ==> s[k] == c)
  {
    if s == "" || s[0] == c then 0 else
      var k := 1 + IndexOf(s[1..], c);
      assert s[..k] == [s[0]] + s[1..][..k - 1];
      k
  }

  // One declaration, as currentStyles holds it.
  predicate IsDeclaration(d: string) {
    d != "" && d[0] > ' ' && d[|d| - 1] > ' ' && ';' !in d
  }

  // The declarations of a `style` attribute; property values have no semicolons.
  function Declarations(style: string): (ds: seq<string>)
    ensures forall d :: d in ds ==> IsDeclaration(d)
    decreases |style|
  {
    var s := Trim(style);
    if s == "" then [] else
      var semi := IndexOf(s, ';');
      if semi == |s| then
        assert s[..semi] == s;
        [s]
      else
        var d := Trim(s[..semi]);
        assert d != "" ==> ';' !in d by { TrimKeeps(s[..semi], ';'); }
        (if d == "" then [] else [d]) + Declarations(s[semi + 1..])
  }

  lemma {:induction false} TrimStartKeeps(s: string, c: char)
    requires c !in s
    ensures c !in TrimStart(s)
  {
    if !(s == "" || s[0] > ' ') {
      TrimStartKeeps(s[1..], c);
    }
  }

  lemma TrimKeeps(s: string, c: char)
    requires c !in s
    ensures c !in Trim(s)
  {
    TrimStartKeeps(s, c);
  }

  // The attribute of a new span.
  function JoinStyles(ds: seq<string>): string
    requires ds != []
  {
    if |ds| == 1 then ds[0] else JoinStyles(ds[..|ds| - 1]) + ";" + ds[|ds| - 1]
  }

  lemma {:induction false} JoinFront(ds: seq<string>)
    requires |ds| >= 2
    ensures JoinStyles(ds) == ds[0] + ";" + JoinStyles(ds[1..])
    decreases |ds|
  {
    var front, last := ds[..|ds| - 1], ds[|ds| - 1];
    if |ds| == 2 {
      assert front == [ds[0]] && ds[1..] == [ds[1]];
    } else {
      JoinFront(front);
      assert front[1..] == ds[1..][..|ds[1..]| - 1];
      assert ds[0] + ";" + JoinStyles(front[1..]) + ";" + last == ds[0] + ";" + (JoinStyles(front[1..]) + ";" + last);
    }
  }

  lemma SplitFirst(d: string, more: string)
    requires IsDeclaration(d) && more != "" && more[|more| - 1] > ' '
    ensures Declarations(d + ";" + more) == [d] + Declarations(more)
  {
    hide Trim, Declarations, IndexOf;
    var s := d + ";" + more;
    assert s[0] == d[0] && s[|s| - 1] == more[|more| - 1];
    assert s[..|d|] == d && s[|d| + 1..] == more;
    IndexOfIs(s, ';', |d|);
    OneMore(s, |d|);
  }

  lemma OneMore(s: string, semi: nat)
    requires semi < |s| && IndexOf(s, ';') == semi && Trim(s) == s && IsDeclaration(s[..semi])
    ensures Declarations(s) == [s[..semi]] + Declarations(s[semi + 1..])
  {
    hide Trim, IndexOf;
  }

  lemma {:induction false} IndexOfIs(s: string, c: char, k: nat)
    requires k < |s| && s[k] == c && c !in s[..k]
    ensures IndexOf(s, c) == k
  {
    if k > 0 {
      assert s[0] == s[..k][0];
      assert s[..k] == [s[0]] + s[1..][..k - 1];
      IndexOfIs(s[1..], c, k - 1);
    }
  }

  lemma Single(d: string)
    requires IsDeclaration(d)
    ensures Declarations(d) == [d]
  {
    assert Trim(d) == d;
    assert IndexOf(d, ';') == |d|;
  }

  // Splitting undoes the `;` join.
  lemma {:induction false} SplitJoin(ds: seq<string>)
    requires ds != [] && forall d :: d in ds ==> IsDeclaration(d)
    ensures Declarations(JoinStyles(ds)) == ds
    ensures var s := JoinStyles(ds); s != "" && s[|s| - 1] > ' '
    decreases |ds|
  {
    hide Declarations, IndexOf, Trim;
    if |ds| == 1 {
      Single(ds[0]);
      assert ds == [ds[0]];
    } else {
      hide JoinStyles;
      SplitJoin(ds[1..]);
      JoinFront(ds);
      SplitFirst(ds[0], JoinStyles(ds[1..]));
    }
  }

  // ---------- Which enclosing spans can stay ----------

  // The declarations in force inside spans with the attributes `path`, outermost first.
  function Enclosing(path: seq<string>): seq<string> {
    if path == [] then [] else Declarations(path[0]) + Enclosing(path[1..])
  }

  lemma {:induction false} EnclosingConcat(a: seq<string>, b: seq<string>)
    ensures Enclosing(a + b) == Enclosing(a) + Enclosing(b)
  {
    if a == [] {
      assert a + b == b;
    } else {
      assert (a + b)[1..] == a[1..] + b;
      EnclosingConcat(a[1..], b);
    }
  }

  lemma EnclosingSnoc(a: seq<string>, style: string)
    ensures Enclosing(a + [style]) == Enclosing(a) + Declarations(style)
  {
    EnclosingConcat(a, [style]);
    assert [style][1..] == [];
  }

  predicate AllStyled(path: seq<string>) {
    forall i :: 0 <= i < |path| ==> path[i] != ""
  }

  // The spans that carry a `style` attribute.
  function Styled(path: seq<string>): (r: seq<string>)
    ensures |r| <= |path|
    ensures AllStyled(path) ==> r == path
  {
    if path == [] then []
    else
      assert path == path[..|path| - 1] + [path[|path| - 1]];
      Styled(path[..|path| - 1]) + (if path[|path| - 1] == "" then [] else [path[|path| - 1]])
  }

  lemma {:induction false} EnclosingStyled(path: seq<string>)
    ensures Enclosing(Styled(path)) == Enclosing(path)
    decreases |path|
  {
    if path != [] {
      var front, last := path[..|path| - 1], path[|path| - 1];
      assert path == front + [last];
      EnclosingStyled(front);
      EnclosingSnoc(front, last);
      if last == "" {
        assert Styled(path) == Styled(front);
        assert Declarations("") == [];
      } else {
        EnclosingSnoc(Styled(front), last);
      }
    }
  }

  lemma Unfold(style: string)
    ensures var s := Trim(style);
            var semi := IndexOf(s, ';');
            Declarations(style) ==
              if s == "" then []
              else if semi == |s| then [s]
              else (if Trim(s[..semi]) == "" then [] else [Trim(s[..semi])]) + Declarations(s[semi + 1..])
    ensures Declarations("") == []
  {
    hide Trim, IndexOf;
  }

  // `k` of the wanted styles from `kept` on are spelled already and `left` is still to be read;
  // with k == -1, something else is declared.
  ghost predicate Matching(ds: seq<string>, currentStyles: seq<string>, kept: nat, k: int, left: seq<string>) {
    if k < 0 then k == -1 && !(ds <= currentStyles[Lesser(kept, |currentStyles|)..])
    else kept + k <= |currentStyles| && ds == currentStyles[kept..kept + k] + left
  }

  function Lesser(a: nat, b: nat): nat {
    if a < b then a else b
  }

  lemma MatchNext(ds: seq<string>, currentStyles: seq<string>, kept: nat, k: nat, s: string, left: seq<string>)
    requires Matching(ds, currentStyles, kept, k, [s] + left)
    ensures Matching(ds, currentStyles, kept,
                     if kept + k < |currentStyles| && s == currentStyles[kept + k] then k + 1 else -1, left)
  {
    var before := currentStyles[kept..kept + k];
    assert ds[k] == s;
    if kept + k < |currentStyles| && s == currentStyles[kept + k] {
      assert currentStyles[kept..kept + k + 1] == before + [s];
      assert before + ([s] + left) == before + [s] + left;
    }
  }

  // How many of the wanted styles, from `kept` on, one `style` attribute spells; -1 if it
  // declares anything else.
  method MatchStyle(style: string, currentStyles: seq<string>, kept: nat) returns (k: int)
    requires kept <= |currentStyles|
    ensures Matching(Declarations(style), currentStyles, kept, k, [])
  {
    hide Trim, IndexOf, Declarations;
    var parentStyle := style;
    k := 0;
    assert Matching(Declarations(style), currentStyles, kept, k, Declarations(style));
    Unfold("");
    hide Matching;
    while k >= 0
      invariant Matching(Declarations(style), currentStyles, kept, k, Declarations(parentStyle))
      invariant k < 0 ==> Matching(Declarations(style), currentStyles, kept, k, [])
      decreases |parentStyle|, k
    {
      Unfold(parentStyle);
      parentStyle := Trim(parentStyle);
      if |parentStyle| == 0 {
        break;
      }
      var semi := IndexOf(parentStyle, ';');
      var s;
      if semi < |parentStyle| {
        s := Trim(parentStyle[..semi]);
        parentStyle := parentStyle[semi + 1..];
        if |s| == 0 {
          assert [] + Declarations(parentStyle) == Declarations(parentStyle);
          continue;
        }
      } else {
        s := parentStyle;
        parentStyle := "";
        assert [s] + [] == [s];
      }
      MatchNext(Declarations(style), currentStyles, kept, k, s, Declarations(parentStyle));
      if kept + k < |currentStyles| && s == currentStyles[kept + k] {
        k := k + 1;
      } else {
        k := -1;
        MatchFailed(Declarations(style), currentStyles, kept, Declarations(parentStyle));
      }
    }
  }

  lemma MatchFailed(ds: seq<string>, currentStyles: seq<string>, kept: nat, left: seq<string>)
    requires Matching(ds, currentStyles, kept, -1, left)
    ensures Matching(ds, currentStyles, kept, -1, [])
  {
  }

  // How many of the styled spans, from the outermost on, spell the wanted styles: up to the first
  // that declares anything else, or until all are spelled.
  function Agreeing(styled: seq<string>, wanted: seq<string>): (m: nat)
    ensures m <= |styled|
  {
    if styled == [] || wanted == [] || !(Declarations(styled[0]) <= wanted) then 0
    else 1 + Agreeing(styled[1..], wanted[|Declarations(styled[0])|..])
  }

  // They declare the first of the wanted styles, and with one span more they would not, unless
  // there is no more to declare or no more span.
  lemma {:induction false} AgreeingIsLongest(styled: seq<string>, wanted: seq<string>)
    ensures var m := Agreeing(styled, wanted);
            && Enclosing(styled[..m]) <= wanted
            && (m == |styled| || Enclosing(styled[..m]) == wanted || !(Enclosing(styled[..m + 1]) <= wanted))
    decreases |styled|
  {
    hide Declarations;
    var m := Agreeing(styled, wanted);
    assert styled[..0] == [];
    if m > 0 {
      var ds, rest := Declarations(styled[0]), wanted[|Declarations(styled[0])|..];
      AgreeingIsLongest(styled[1..], rest);
      assert styled[..m][1..] == styled[1..][..m - 1];
      assert wanted == ds + rest;
      assert m < |styled| ==> styled[..m + 1][1..] == styled[1..][..m];
    } else if styled != [] && wanted != [] {
      assert styled[..1][1..] == [];
      assert Enclosing(styled[..1]) == Declarations(styled[0]) + [];
    }
  }

  // The spans that must be left, and how many of the wanted styles those that stay declare.
  function Popped(path: seq<string>, wanted: seq<string>): (n: nat)
    ensures n <= |path|
  {
    |Styled(path)| - Agreeing(Styled(path), wanted)
  }

  function Kept(path: seq<string>, wanted: seq<string>): (n: nat)
    ensures n <= |wanted|
  {
    AgreeingIsLongest(Styled(path), wanted);
    |Enclosing(Styled(path)[..Agreeing(Styled(path), wanted)])|
  }

  // The comparison of the styled spans with the wanted styles.
  method Compare(styled: seq<string>, currentStyles: seq<string>) returns (popCount: nat, kept: nat)
    ensures var m := Agreeing(styled, currentStyles);
            && popCount == |styled| - m && kept == |Enclosing(styled[..m])| <= |currentStyles|
  {
    hide Declarations, Enclosing;
    var m := 0;
    kept := 0;
    NothingEnclosing();
    assert styled[..0] == [] && currentStyles[..0] == [];
    while m < |styled|
      invariant m <= |styled| && kept <= |currentStyles|
      invariant kept == |Enclosing(styled[..m])|
      invariant Agreeing(styled, currentStyles) == m + Agreeing(styled[m..], currentStyles[kept..])
    {
      if kept == |currentStyles| {
        break;
      }
      var k := MatchStyle(styled[m], currentStyles, kept);
      if k < 0 {
        break;
      }
      assert styled[..m + 1] == styled[..m] + [styled[m]];
      EnclosingSnoc(styled[..m], styled[m]);
      assert Declarations(styled[m]) == currentStyles[kept..][..k];
      assert styled[m..][1..] == styled[m + 1..] && currentStyles[kept..][k..] == currentStyles[kept + k..];
      kept := kept + k;
      m := m + 1;
    }
    popCount := |styled| - m;
  }

  lemma NothingEnclosing()
    ensures Enclosing([]) == []
  {
  }

  // The declarations in force around the cursor when adjustStyle is done: those of the spans that
  // stay and of a new one.  It is the innermost spans that are left, as many as styled ones
  // disagree.
  function Adjusted(path: seq<string>, wanted: seq<string>): seq<string> {
    Enclosing(path[..|path| - Popped(path, wanted)]) + wanted[Kept(path, wanted)..]
  }

  // The spans declare what an adjustment of others left.
  predicate Held(path: seq<string>, adjustedAt: seq<string>, wanted: seq<string>) {
    Enclosing(path) == Adjusted(adjustedAt, wanted)
  }

  lemma NothingHeld()
    ensures Held([], [], [])
  {
  }

  // None of the spans that stay declares anything, but for the agreeing ones.
  predicate NothingStays(path: seq<string>, wanted: seq<string>) {
    forall i :: 0 <= i < |path| - Popped(path, wanted) && |Styled(path[..i])| >= Agreeing(Styled(path), wanted)
      ==> Declarations(path[i]) == []
  }

  // What results is exactly the wanted styles if and only if nothing else stays.
  lemma AdjustedIsWanted(path: seq<string>, wanted: seq<string>)
    ensures Adjusted(path, wanted) == wanted <==> NothingStays(path, wanted)
  {
    hide Enclosing, Declarations, Styled, Agreeing;
    var styled, m, n := Styled(path), Agreeing(Styled(path), wanted), |path| - Popped(path, wanted);
    AgreeingIsLongest(styled, wanted);
    AgreeingStay(path, wanted);
    var stay := Styled(path[..n]);
    assert stay == stay[..m] + stay[m..];
    EnclosingConcat(stay[..m], stay[m..]);
    EnclosingStyled(path[..n]);
    StayingDeclares(path, n, m);
    NothingBetween(wanted, Kept(path, wanted), Enclosing(stay[m..]));
  }

  // The agreeing spans are among those that stay.
  lemma AgreeingStay(path: seq<string>, wanted: seq<string>)
    ensures var styled, m := Styled(path), Agreeing(Styled(path), wanted);
            var stay := Styled(path[..|path| - Popped(path, wanted)]);
            m <= |stay| && stay[..m] == styled[..m]
  {
    StyledPrefix(path, Popped(path, wanted));
  }

  lemma NothingBetween(wanted: seq<string>, k: nat, extra: seq<string>)
    requires k <= |wanted|
    ensures wanted[..k] + extra + wanted[k..] == wanted <==> extra == []
  {
    if extra == [] {
      assert wanted[..k] + [] + wanted[k..] == wanted;
    } else {
      assert |wanted[..k] + extra + wanted[k..]| > |wanted|;
    }
  }

  lemma StyledSnoc(path: seq<string>, n: nat)
    requires 0 < n <= |path|
    ensures Styled(path[..n]) == Styled(path[..n - 1]) + if path[n - 1] == "" then [] else [path[n - 1]]
  {
    assert path[..n][..n - 1] == path[..n - 1];
  }

  // What the styled spans among the first n declare, from the m-th on.
  lemma {:induction false} StayingDeclares(path: seq<string>, n: nat, m: nat)
    requires n <= |path| && m <= |Styled(path[..n])|
    ensures Enclosing(Styled(path[..n])[m..]) == [] <==>
            forall i :: 0 <= i < n && |Styled(path[..i])| >= m ==> Declarations(path[i]) == []
    decreases n
  {
    hide Declarations, Styled, Enclosing;
    var styled := Styled(path[..n]);
    NothingEnclosing();
    if n == 0 {
      NoneStyled(path);
      assert styled[m..] == [];
    } else {
      var front, last := Styled(path[..n - 1]), path[n - 1];
      StyledSnoc(path, n);
      Unfold("");
      if m <= |front| {
        StayingDeclares(path, n - 1, m);
        if last != "" {
          assert styled[m..] == front[m..] + [last];
          EnclosingSnoc(front[m..], last);
        } else {
          assert styled == front;
        }
      } else {
        assert styled[m..] == [];
        forall i | 0 <= i < n ensures |Styled(path[..i])| < m {
          MoreStyled(path, i, n - 1);
        }
      }
    }
  }

  lemma NoneStyled(path: seq<string>)
    ensures Styled(path[..0]) == []
  {
  }

  lemma {:induction false} MoreStyled(path: seq<string>, i: nat, j: nat)
    requires i <= j <= |path|
    ensures |Styled(path[..i])| <= |Styled(path[..j])|
    decreases j
  {
    hide Styled;
    if i < j {
      StyledSnoc(path, j);
      MoreStyled(path, i, j - 1);
    }
  }

  // With nothing but styled spans around the cursor, the wanted styles always result.
  lemma AdjustedWhenStyled(path: seq<string>, wanted: seq<string>)
    requires AllStyled(path)
    ensures Adjusted(path, wanted) == wanted
  {
    AdjustedIsWanted(path, wanted);
    hide Agreeing, Enclosing, Declarations;
    forall i | 0 <= i < |path| - Popped(path, wanted) ensures |Styled(path[..i])| < Agreeing(Styled(path), wanted) {
      assert AllStyled(path[..i]);
    }
  }

  // A span without a style inside a styled one: nothing is wanted, the styled span does not agree,
  // and it is the other that is left.
  lemma WrongSpanLeft()
    ensures var path := ["color: red", ""];
            && Agreeing(Styled(path), []) == 0 && Popped(path, []) == 1
            && Adjusted(path, []) == ["color: red"]
  {
    hide Styled, Declarations, Enclosing;
    var path := ["color: red", ""];
    OneStyled(path);
    OneDeclared(path[0]);
    assert path[..1] == [path[0]] && [path[0]][..0] == [];
    NothingDeclared();
  }

  lemma OneStyled(path: seq<string>)
    requires |path| == 2 && path[0] != "" && path[1] == ""
    ensures Styled(path) == [path[0]]
  {
    assert path[..1] == [path[0]] && [path[0]][..0] == [];
    assert Styled([path[0]]) == [path[0]];
  }

  lemma OneDeclared(style: string)
    requires IsDeclaration(style)
    ensures Enclosing([style]) == [style]
  {
    hide Declarations;
    Single(style);
    assert [style][1..] == [];
  }

  lemma NothingDeclared()
    ensures Enclosing([]) == []
  {
  }

  lemma {:induction false} StyledPrefix(path: seq<string>, n: nat)
    requires n <= |Styled(path)|
    ensures Styled(path)[..|Styled(path)| - n] <= Styled(path[..|path| - n])
    decreases |path|
  {
    if n == 0 {
      assert path[..|path|] == path;
    } else {
      var front := path[..|path| - 1];
      var b', b := Styled(path), Styled(front);
      var k := |b'| - n;
      assert k <= |b| - (n - 1) && b'[..k] == b[..k];
      hide Styled;
      StyledPrefix(front, n - 1);
      assert front[..|front| - (n - 1)] == path[..|path| - n];
      assert b[..|b| - (n - 1)][..k] == b[..k];
    }
  }
}
