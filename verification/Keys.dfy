/** Mutant keys, path:line:column:mutator, their order and their paths. */
module Keys {

  // ---- The path of a key --------------------------------------------------------------------

  /** The text before its last colon. */
  function BeforeLastColon(text: string): string {
    if text == "" then ""
    else
      var n := |text| - 1;
      if text[n] == ':' then text[..n] else BeforeLastColon(text[..n])
  }

  /** The three trailing fields are taken from the right, as the path may have colons of its own. */
  function PathOfKey(key: string): string {
    BeforeLastColon(BeforeLastColon(BeforeLastColon(key)))
  }

  function KeyOf(path: string, line: string, column: string, mutator: string): string {
    path + ":" + line + ":" + column + ":" + mutator
  }

  lemma {:induction false} FieldIsCut(text: string, field: string)
    requires ':' !in field
    ensures BeforeLastColon(text + ":" + field) == text
  {
    var whole := text + ":" + field;
    var n := |whole| - 1;
    if field == "" {
      assert whole == text + [':'] && whole[..n] == text;
    } else {
      assert whole[n] == field[|field| - 1];
      assert whole[..n] == text + ":" + field[..|field| - 1];
      FieldIsCut(text, field[..|field| - 1]);
    }
  }

  lemma KeyTellsPath(path: string, line: string, column: string, mutator: string)
    requires ':' !in line && ':' !in column && ':' !in mutator
    ensures PathOfKey(KeyOf(path, line, column, mutator)) == path
  {
    FieldIsCut(path + ":" + line + ":" + column, mutator);
    FieldIsCut(path + ":" + line, column);
    FieldIsCut(path, line);
  }

  // ---- Sorted keys ----------------------------------------------------------------------------

  /** Text order, by character code. */
  predicate Before(a: string, b: string) {
    b != "" && (a == "" || a[0] < b[0] || (a[0] == b[0] && Before(a[1..], b[1..])))
  }

  lemma {:induction false} BeforeIsTotal(a: string, b: string)
    ensures a == b || Before(a, b) || Before(b, a)
    ensures !(Before(a, b) && Before(b, a)) && !Before(a, a)
  {
    if a != "" && b != "" {
      BeforeIsTotal(a[1..], b[1..]);
      assert a == [a[0]] + a[1..] && b == [b[0]] + b[1..];
    }
    if a != "" {
      BeforeIsTotal(a[1..], a[1..]);
    }
  }

  lemma {:induction false} BeforeChains(a: string, b: string, c: string)
    requires Before(a, b) && Before(b, c)
    ensures Before(a, c)
  {
    if a != "" && a[0] == b[0] == c[0] {
      BeforeChains(a[1..], b[1..], c[1..]);
    }
  }

  predicate IsFirst(k: string, s: set<string>) {
    k in s && forall x :: x in s && x != k ==> Before(k, x)
  }

  lemma {:induction false} FirstExists(s: set<string>)
    requires s != {}
    ensures exists k :: IsFirst(k, s)
    decreases |s|
  {
    var x :| x in s;
    if s == {x} {
      assert IsFirst(x, s);
    } else {
      FirstExists(s - {x});
      var k :| IsFirst(k, s - {x});
      BeforeIsTotal(k, x);
      if Before(k, x) {
        assert IsFirst(k, s);
      } else {
        forall y | y in s && y != x ensures Before(x, y) {
          if y != k {
            BeforeChains(x, k, y);
          }
        }
        assert IsFirst(x, s);
      }
    }
  }

  lemma FirstIsOne(a: string, b: string, s: set<string>)
    requires IsFirst(a, s) && IsFirst(b, s)
    ensures a == b
  {
    BeforeIsTotal(a, b);
  }

  function Sorted(s: set<string>): (r: seq<string>)
    ensures |r| == |s|
    ensures forall k :: k in r <==> k in s
    decreases |s|
  {
    if s == {} then []
    else
      FirstExists(s);
      assert forall a, b :: IsFirst(a, s) && IsFirst(b, s) ==> a == b by {
        forall a, b | IsFirst(a, s) && IsFirst(b, s) ensures a == b {
          FirstIsOne(a, b, s);
        }
      }
      var k :| IsFirst(k, s);
      [k] + Sorted(s - {k})
  }

  lemma SortedBegins(s: set<string>) returns (k: string)
    requires s != {}
    ensures IsFirst(k, s) && Sorted(s) == [k] + Sorted(s - {k})
  {
    k := Sorted(s)[0];
    assert IsFirst(k, s);
  }

  /** Listed in order, so without repetition. */
  lemma {:induction false} SortedIsInOrder(s: set<string>, i: nat, j: nat)
    requires i < j < |s|
    ensures Before(Sorted(s)[i], Sorted(s)[j])
    decreases |s|
  {
    hide Sorted, Before;
    var k := SortedBegins(s);
    if i == 0 {
      assert Sorted(s)[j] == Sorted(s - {k})[j - 1];
      assert Sorted(s)[j] in s - {k};
    } else {
      SortedIsInOrder(s - {k}, i - 1, j - 1);
    }
  }
}
