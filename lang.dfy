/** The table of characters that OCR commonly confuses, of ocropy/lang.py:
    every character of a confusion class is a key whose value is its
    class. */
module Lang {
  import opened Text

  /** `ocr_confusions_list`. */
  const ConfusionsList: seq<seq<Text>> := [
    [Lit("c"), Lit("C")],
    [Lit("l"), Lit("1"), Lit("I"), Lit("|"), Lit("/")],
    [Lit("o"), Lit("O"), Lit("0")],
    [Lit("s"), Lit("S")],
    [Lit("u"), Lit("U")],
    [Lit("v"), Lit("V")],
    [Lit("w"), Lit("W")],
    [Lit("x"), Lit("X")],
    [Lit("z"), Lit("Z")],
    [Lit(","), Lit("'"), Lit("."), Lit("`")]
  ]

  /** The table after the inner loop has keyed the first i members of e
      to e. */
  function Entries(m: map<Text, seq<Text>>, e: seq<Text>, i: nat): map<Text, seq<Text>>
    requires i <= |e|
  {
    if i == 0 then m else Entries(m, e, i - 1)[e[i - 1] := e]
  }

  /** The table after the outer loop over the lists es. */
  function TableOf(es: seq<seq<Text>>): map<Text, seq<Text>>
  {
    if es == [] then map[] else Entries(TableOf(es[..|es| - 1]), es[|es| - 1], |es[|es| - 1]|)
  }

  /** The members of all lists. */
  function Members(es: seq<seq<Text>>): set<Text>
  {
    set a, k | 0 <= a < |es| && 0 <= k < |es[a]| :: es[a][k]
  }

  /** No text is a member of two different lists. */
  ghost predicate Disjoint(es: seq<seq<Text>>)
  {
    forall a, b, k, l :: 0 <= a < b < |es| && 0 <= k < |es[a]| && 0 <= l < |es[b]| ==> es[a][k] != es[b][l]
  }

  /** The loop at module level of ocropy/lang.py that fills `ocr_confusions`. */
  method BuildConfusions(lists: seq<seq<Text>>) returns (table: map<Text, seq<Text>>)
    ensures table == TableOf(lists)
  {
    table := map[];
    for n := 0 to |lists|
      invariant table == TableOf(lists[..n])
    {
      assert lists[..n + 1][..n] == lists[..n];
      var e := lists[n];
      for i := 0 to |e|
        invariant table == Entries(TableOf(lists[..n]), e, i)
      {
        table := table[e[i] := e];
      }
    }
    assert lists[..|lists|] == lists;
  }

  /** The inner loop adds the members of e, keyed to e, and keeps every
      other entry. */
  lemma {:induction false} EntriesOf(m: map<Text, seq<Text>>, e: seq<Text>, i: nat)
    requires i <= |e|
    ensures Entries(m, e, i).Keys == m.Keys + set k | 0 <= k < i :: e[k]
    ensures forall k :: 0 <= k < i ==> Entries(m, e, i)[e[k]] == e
    ensures forall c :: c in m && c !in e[..i] ==> Entries(m, e, i)[c] == m[c]
  {
    if i > 0 {
      EntriesOf(m, e, i - 1);
      assert (set k | 0 <= k < i :: e[k]) == (set k | 0 <= k < i - 1 :: e[k]) + {e[i - 1]};
      assert forall c :: c in e[..i] <==> c in e[..i - 1] || c == e[i - 1];
    }
  }

  /** The keys are exactly the members of the lists, and every key is a
      member of its own list. */
  lemma {:induction false} TableKeys(es: seq<seq<Text>>)
    ensures TableOf(es).Keys == Members(es)
    ensures forall c :: c in TableOf(es) ==> c in TableOf(es)[c]
  {
    if es != [] {
      var n := |es| - 1;
      var e := es[n];
      TableKeys(es[..n]);
      EntriesOf(TableOf(es[..n]), e, |e|);
      assert e[..|e|] == e;
      assert Members(es) == Members(es[..n]) + set k | 0 <= k < |e| :: e[k] by {
        forall c | c in Members(es) ensures c in Members(es[..n]) + set k | 0 <= k < |e| :: e[k] {
          var a, k :| 0 <= a < |es| && 0 <= k < |es[a]| && es[a][k] == c;
          if a < n {
            assert es[..n][a][k] == c;
          }
        }
        forall c | c in Members(es[..n]) ensures c in Members(es) {
          var a, k :| 0 <= a < n && 0 <= k < |es[..n][a]| && es[..n][a][k] == c;
          assert es[a][k] == c;
        }
      }
      forall c | c in TableOf(es) ensures c in TableOf(es)[c] {
        if c in e {
          var k :| 0 <= k < |e| && e[k] == c;
        }
      }
    }
  }

  /** With disjoint lists no later list overwrites an earlier one: every
      member is keyed to its own list. */
  lemma {:induction false} TableValues(es: seq<seq<Text>>, a: int, k: int)
    requires Disjoint(es) && 0 <= a < |es| && 0 <= k < |es[a]|
    ensures es[a][k] in TableOf(es) && TableOf(es)[es[a][k]] == es[a]
  {
    var n := |es| - 1;
    var e := es[n];
    EntriesOf(TableOf(es[..n]), e, |e|);
    assert e[..|e|] == e;
    if a < n {
      assert Disjoint(es[..n]) by {
        forall a', b', k', l' | 0 <= a' < b' < n && 0 <= k' < |es[..n][a']| && 0 <= l' < |es[..n][b']|
          ensures es[..n][a'][k'] != es[..n][b'][l']
        {
          assert es[..n][a'] == es[a'] && es[..n][b'] == es[b'];
        }
      }
      assert es[..n][a] == es[a];
      TableValues(es[..n], a, k);
      forall l | 0 <= l < |e| ensures e[l] != es[a][k] {
        assert es[a][k] != es[n][l];
      }
    }
  }

  /** The classes of `ocr_confusions_list` share no character. */
  lemma ConfusionsDisjoint()
    ensures Disjoint(ConfusionsList)
  {
    var es := ConfusionsList;
    forall a, b, k, l | 0 <= a < b < |es| && 0 <= k < |es[a]| && 0 <= l < |es[b]|
      ensures es[a][k] != es[b][l]
    {
      assert es[a][k][0] != es[b][l][0];
    }
  }

  /** `ocr_confusions`: each character of a class maps to the class, the
      keys are the characters of the classes, and characters of the same
      class map to the same list. */
  lemma OcrConfusions()
    ensures TableOf(ConfusionsList).Keys == Members(ConfusionsList)
    ensures forall a, k :: 0 <= a < |ConfusionsList| && 0 <= k < |ConfusionsList[a]| ==>
      TableOf(ConfusionsList)[ConfusionsList[a][k]] == ConfusionsList[a]
  {
    ConfusionsDisjoint();
    TableKeys(ConfusionsList);
    forall a, k | 0 <= a < |ConfusionsList| && 0 <= k < |ConfusionsList[a]|
      ensures TableOf(ConfusionsList)[ConfusionsList[a][k]] == ConfusionsList[a]
    {
      TableValues(ConfusionsList, a, k);
    }
  }
}
