/** Linear combinations over input and auxiliary variables, kept as sorted lists of
    (index, coefficient) with a cached position of the last insertion. */
module LinComb {
  import opened PrimeField
  import opened FieldLaws
  import opened Vectors
  import opened Wrappers

  type Terms = seq<(nat, Fe)>

  ghost predicate Sorted(t: Terms) {
    forall i, j :: 0 <= i < j < |t| ==> t[i].0 < t[j].0
  }

  ghost predicate Below(t: Terms, n: nat) {
    forall i :: 0 <= i < |t| ==> t[i].0 < n
  }

  /** Coefficient of a key; 0 when the key is absent. */
  function Coeff(t: Terms, key: nat): Fe {
    if |t| == 0 then 0 else if t[0].0 == key then t[0].1 else Coeff(t[1..], key)
  }

  /** The specification of insert_or_update with addition: add c to the coefficient of key. */
  function AddTerm(t: Terms, key: nat, c: Fe): Terms {
    if |t| == 0 then [(key, c)]
    else if t[0].0 == key then [(key, Add(t[0].1, c))] + t[1..]
    else if key < t[0].0 then [(key, c)] + t
    else [t[0]] + AddTerm(t[1..], key, c)
  }

  lemma {:induction false} AddTermSorted(t: Terms, key: nat, c: Fe)
    requires Sorted(t)
    ensures Sorted(AddTerm(t, key, c))
    ensures forall i :: 0 <= i < |AddTerm(t, key, c)| ==>
              || AddTerm(t, key, c)[i].0 == key
              || exists j :: 0 <= j < |t| && t[j].0 == AddTerm(t, key, c)[i].0
  {
    if |t| > 0 && t[0].0 < key {
      AddTermSorted(t[1..], key, c);
      var rest := AddTerm(t[1..], key, c);
      forall i | 0 <= i < |rest| ensures t[0].0 < rest[i].0 {
        if rest[i].0 != key {
          var j :| 0 <= j < |t[1..]| && t[1..][j].0 == rest[i].0;
          assert t[j + 1].0 == rest[i].0;
        }
      }
    }
  }

  lemma {:induction false} AddTermBelow(t: Terms, key: nat, c: Fe, n: nat)
    requires Below(t, n) && key < n
    ensures Below(AddTerm(t, key, c), n)
  {
    if |t| > 0 && t[0].0 != key && key >= t[0].0 {
      AddTermBelow(t[1..], key, c, n);
    }
  }

  lemma {:induction false} CoeffAbsent(t: Terms, key: nat)
    requires forall i :: 0 <= i < |t| ==> t[i].0 != key
    ensures Coeff(t, key) == 0
  {
    if |t| > 0 { CoeffAbsent(t[1..], key); }
  }

  /** The list stays sorted and only the coefficient of the key changes. */
  lemma {:induction false} AddTermCoeff(t: Terms, key: nat, c: Fe, k: nat)
    requires Sorted(t)
    ensures Coeff(AddTerm(t, key, c), k) == if k == key then Add(Coeff(t, k), c) else Coeff(t, k)
  {
    if |t| == 0 {
      AddZero(c);
      assert AddTerm(t, key, c)[1..] == [];
    } else if t[0].0 == key {
      assert AddTerm(t, key, c)[1..] == t[1..];
    } else if key < t[0].0 {
      assert AddTerm(t, key, c)[1..] == t;
      CoeffAbsent(t, key);
      AddZero(c);
    } else {
      assert AddTerm(t, key, c)[1..] == AddTerm(t[1..], key, c);
      AddTermCoeff(t[1..], key, c, k);
    }
  }

  // ------------------------------------------------------------------ positions

  lemma {:induction false} UpdateAt(t: Terms, i: nat, key: nat, c: Fe)
    requires Sorted(t) && i < |t| && t[i].0 == key
    ensures AddTerm(t, key, c) == t[i := (key, Add(t[i].1, c))]
  {
    if i == 0 {
    } else {
      UpdateAt(t[1..], i - 1, key, c);
      assert t == [t[0]] + t[1..];
    }
  }

  lemma {:induction false} InsertAt(t: Terms, i: nat, key: nat, c: Fe)
    requires Sorted(t) && i <= |t|
    requires forall j :: 0 <= j < i ==> t[j].0 < key
    requires forall j :: i <= j < |t| ==> key < t[j].0
    ensures AddTerm(t, key, c) == t[..i] + [(key, c)] + t[i..]
  {
    if i == 0 {
      assert t[..0] + [(key, c)] + t[0..] == [(key, c)] + t;
    } else {
      InsertAt(t[1..], i - 1, key, c);
      assert t[..i] == [t[0]] + t[1..][..i - 1] && t[1..][i - 1..] == t[i..];
    }
  }

  // -------------------------------------------------------------------- indexer

  class Indexer {
    var values: Terms
    var lastInserted: Option<(nat, nat)>

    /** Sorted, and the cached position still holds the cached key. */
    ghost predicate Valid()
      reads this
    {
      && Sorted(values)
      && (lastInserted.Some? ==>
            lastInserted.value.0 < |values| && values[lastInserted.value.0].0 == lastInserted.value.1)
    }

    constructor ()
      ensures Valid() && values == []
    {
      values := [];
      lastInserted := None;
    }

    constructor FromValue(index: nat, value: Fe)
      ensures Valid() && values == [(index, value)]
    {
      values := [(index, value)];
      lastInserted := Some((0, index));
    }

    method Update(i: nat, c: Fe)
      requires Valid() && i < |values|
      modifies this`values
      ensures Valid() && values == AddTerm(old(values), old(values)[i].0, c)
    {
      UpdateAt(values, i, values[i].0, c);
      values := values[i := (values[i].0, Add(values[i].1, c))];
    }

    method Insert(i: nat, key: nat, c: Fe)
      requires Valid() && i <= |values|
      requires forall j :: 0 <= j < i ==> values[j].0 < key
      requires forall j :: i <= j < |values| ==> key < values[j].0
      modifies this
      ensures Valid() && values == AddTerm(old(values), key, c)
    {
      InsertAt(values, i, key, c);
      AddTermSorted(values, key, c);
      values := values[..i] + [(key, c)] + values[i..];
      lastInserted := Some((i, key));
    }

    /** Position of the key, or where it belongs. */
    method BinarySearch(key: nat) returns (found: bool, i: nat)
      requires Valid()
      ensures i <= |values| && (found ==> i < |values| && values[i].0 == key)
      ensures !found ==>
                && (forall j :: 0 <= j < i ==> values[j].0 < key)
                && forall j :: i <= j < |values| ==> key < values[j].0
    {
      var lo, hi := 0, |values|;
      while lo < hi
        invariant 0 <= lo <= hi <= |values|
        invariant forall j :: 0 <= j < lo ==> values[j].0 < key
        invariant forall j :: hi <= j < |values| ==> key < values[j].0
      {
        var mid := (lo + hi) / 2;
        if values[mid].0 == key {
          return true, mid;
        } else if values[mid].0 < key {
          lo := mid + 1;
        } else {
          hi := mid;
        }
      }
      return false, lo;
    }

    /** Adds c to the coefficient of key: the cached position first, then binary search. */
    method InsertOrUpdate(key: nat, c: Fe)
      requires Valid()
      modifies this
      ensures Valid() && values == AddTerm(old(values), key, c)
    {
      if lastInserted.Some? {
        var (lastIndex, lastKey) := lastInserted.value;
        if lastKey == key {
          Update(lastIndex, c);
          return;
        } else if lastKey + 1 == key {
          var i := lastIndex + 1;
          if i >= |values| {
            Insert(i, key, c);
          } else if values[i].0 == key {
            Update(i, c);
          } else {
            assert forall j :: i <= j < |values| ==> values[i].0 <= values[j].0;
            Insert(i, key, c);
          }
          return;
        }
      }
      var found, i := BinarySearch(key);
      if found {
        Update(i, c);
      } else {
        Insert(i, key, c);
      }
    }
  }

  // ----------------------------------------------------------------- evaluation

  function EvalTerms(t: Terms, v: Vec): Fe
    requires Below(t, |v|)
  {
    if |t| == 0 then 0
    else
      assert Below(t[1..], |v|);
      Add(Mul(t[0].1, v[t[0].0]), EvalTerms(t[1..], v))
  }

  lemma {:induction false} EvalTermsSnoc(t: Terms, i: nat, v: Vec)
    requires Below(t, |v|) && i < |t|
    ensures Below(t[..i], |v|) && Below(t[..i + 1], |v|)
    ensures EvalTerms(t[..i + 1], v) == Add(EvalTerms(t[..i], v), Mul(t[i].1, v[t[i].0]))
  {
    hide Add, Mul;
    if i == 0 {
      assert t[..1][1..] == [];
      AddZero(Mul(t[0].1, v[t[0].0]));
    } else {
      EvalTermsSnoc(t[1..], i - 1, v);
      assert t[..i + 1][1..] == t[1..][..i] && t[..i][1..] == t[1..][..i - 1];
      AddAssoc(Mul(t[0].1, v[t[0].0]), EvalTerms(t[1..][..i - 1], v), Mul(t[i].1, v[t[i].0]));
    }
  }

  /** Adding a term adds its product to the value. */
  lemma {:induction false} EvalAddTerm(t: Terms, key: nat, c: Fe, v: Vec)
    requires Below(t, |v|) && key < |v|
    ensures Below(AddTerm(t, key, c), |v|)
    ensures EvalTerms(AddTerm(t, key, c), v) == Add(EvalTerms(t, v), Mul(c, v[key]))
  {
    hide Add, Mul;
    AddTermBelow(t, key, c, |v|);
    var d := Mul(c, v[key]);
    if |t| == 0 {
      AddComm(d, 0);
      assert AddTerm(t, key, c)[1..] == [];
    } else {
      var (x, rest) := (Mul(t[0].1, v[t[0].0]), EvalTerms(t[1..], v));
      if t[0].0 == key {
        assert AddTerm(t, key, c)[1..] == t[1..];
        AddMul(t[0].1, c, v[key]);
        SwapLast(x, d, rest);
      } else if key < t[0].0 {
        assert AddTerm(t, key, c)[1..] == t;
        AddComm(d, EvalTerms(t, v));
      } else {
        assert AddTerm(t, key, c)[1..] == AddTerm(t[1..], key, c);
        EvalAddTerm(t[1..], key, c, v);
        AddAssoc(x, rest, d);
      }
    }
  }

  lemma SwapLast(a: Fe, b: Fe, c: Fe)
    ensures Add(Add(a, b), c) == Add(Add(a, c), b)
  {
  }

  // ---------------------------------------------------------- linear combination

  datatype Variable = Input(i: nat) | Aux(i: nat)

  /** The value of a linear combination object. */
  datatype LC = LC(inputs: Terms, aux: Terms)

  const ZEROLC := LC([], [])

  ghost predicate Allocated(lc: LC, numInputs: nat, numAux: nat) {
    Sorted(lc.inputs) && Sorted(lc.aux) && Below(lc.inputs, numInputs) && Below(lc.aux, numAux)
  }

  function EvalLC(lc: LC, inputs: Vec, aux: Vec): Fe
    requires Allocated(lc, |inputs|, |aux|)
  {
    Add(EvalTerms(lc.inputs, inputs), EvalTerms(lc.aux, aux))
  }

  function AddVar(lc: LC, c: Fe, x: Variable): LC {
    match x
    case Input(i) => lc.(inputs := AddTerm(lc.inputs, i, c))
    case Aux(i) => lc.(aux := AddTerm(lc.aux, i, c))
  }

  predicate InScope(x: Variable, numInputs: nat, numAux: nat) {
    if x.Input? then x.i < numInputs else x.i < numAux
  }

  /** t plus k times the terms of o, inserted one after the other. */
  function AddScaledTerms(t: Terms, o: Terms, k: Fe): Terms {
    if |o| == 0 then t
    else AddTerm(AddScaledTerms(t, o[..|o| - 1], k), o[|o| - 1].0, Mul(o[|o| - 1].1, k))
  }

  lemma {:induction false} EvalAddScaled(t: Terms, o: Terms, k: Fe, v: Vec)
    requires Sorted(t) && Below(t, |v|) && Below(o, |v|)
    ensures Sorted(AddScaledTerms(t, o, k)) && Below(AddScaledTerms(t, o, k), |v|)
    ensures EvalTerms(AddScaledTerms(t, o, k), v) == Add(EvalTerms(t, v), Mul(k, EvalTerms(o, v)))
  {
    hide Add, Mul, AddTerm, Sorted;
    if |o| == 0 {
      MulOne(k);
      AddZero(EvalTerms(t, v));
    } else {
      var last := |o| - 1;
      var (init, key, c) := (o[..last], o[last].0, o[last].1);
      EvalAddScaled(t, init, k, v);
      var u := AddScaledTerms(t, init, k);
      EvalAddTerm(u, key, Mul(c, k), v);
      AddTermSorted(u, key, Mul(c, k));
      EvalTermsSnoc(o, last, v);
      assert o[..last + 1] == o;
      MulComm(c, k);
      MulAssoc(k, c, v[key]);
      MulAdd(k, EvalTerms(init, v), Mul(c, v[key]));
      AddAssoc(EvalTerms(t, v), Mul(k, EvalTerms(init, v)), Mul(k, Mul(c, v[key])));
    }
  }

  class LinearCombination {
    const inputs: Indexer
    const aux: Indexer

    ghost predicate Valid()
      reads this, inputs, aux
    {
      inputs != aux && inputs.Valid() && aux.Valid()
    }

    function Value(): LC
      reads this, inputs, aux
    {
      LC(inputs.values, aux.values)
    }

    constructor Zero()
      ensures Valid() && fresh(inputs) && fresh(aux) && Value() == ZEROLC
    {
      inputs := new Indexer();
      aux := new Indexer();
    }

    constructor FromCoeff(x: Variable, c: Fe)
      ensures Valid() && fresh(inputs) && fresh(aux) && Value() == AddVar(ZEROLC, c, x)
    {
      if x.Input? {
        inputs := new Indexer.FromValue(x.i, c);
        aux := new Indexer();
      } else {
        inputs := new Indexer();
        aux := new Indexer.FromValue(x.i, c);
      }
    }

    method AddUnsimplified(c: Fe, x: Variable)
      requires Valid()
      modifies inputs, aux
      ensures Valid() && Value() == AddVar(old(Value()), c, x)
    {
      match x {
        case Input(i) => inputs.InsertOrUpdate(i, c);
        case Aux(i) => aux.InsertOrUpdate(i, c);
      }
    }

    method SubUnsimplified(c: Fe, x: Variable)
      requires Valid()
      modifies inputs, aux
      ensures Valid() && Value() == AddVar(old(Value()), Neg(c), x)
    {
      AddUnsimplified(Neg(c), x);
    }

    /** self + k * other */
    method AddScaled(k: Fe, other: LinearCombination)
      requires Valid() && other.Valid() && {inputs, aux} !! {other.inputs, other.aux}
      modifies inputs, aux
      ensures Valid()
      ensures Value() == LC(AddScaledTerms(old(inputs.values), other.inputs.values, k),
                            AddScaledTerms(old(aux.values), other.aux.values, k))
    {
      AddScaledList(inputs, other.inputs, k);
      AddScaledList(aux, other.aux, k);
    }

    static method AddScaledList(t: Indexer, o: Indexer, k: Fe)
      requires t != o && t.Valid() && o.Valid()
      modifies t
      ensures t.Valid() && t.values == AddScaledTerms(old(t.values), o.values, k)
    {
      hide AddTerm, Mul;
      var n := |o.values|;
      for i := 0 to n
        invariant t.Valid() && o.values == old(o.values)
        invariant t.values == AddScaledTerms(old(t.values), o.values[..i], k)
      {
        assert o.values[..i + 1][..i] == o.values[..i];
        t.InsertOrUpdate(o.values[i].0, Mul(o.values[i].1, k));
      }
      assert o.values[..n] == o.values;
    }

    /** The value under an assignment; a coefficient of 1 is not multiplied. */
    method Eval(inputAssignment: Vec, auxAssignment: Vec) returns (acc: Fe)
      requires Valid() && Allocated(Value(), |inputAssignment|, |auxAssignment|)
      ensures acc == EvalLC(Value(), inputAssignment, auxAssignment)
    {
      hide Add, Mul;
      acc := EvalList(0, inputs, inputAssignment);
      acc := EvalList(acc, aux, auxAssignment);
      AddZero(EvalTerms(inputs.values, inputAssignment));
    }

    static method EvalList(start: Fe, t: Indexer, v: Vec) returns (acc: Fe)
      requires t.Valid() && Below(t.values, |v|)
      ensures acc == Add(start, EvalTerms(t.values, v))
    {
      assert t.values[..0] == [];
      AddZero(start);
      hide Add, Mul, Sorted;
      acc := start;
      for i := 0 to |t.values|
        invariant Below(t.values[..i], |v|) && acc == Add(start, EvalTerms(t.values[..i], v))
      {
        var (index, coeff) := t.values[i];
        EvalTermsSnoc(t.values, i, v);
        MulOne(v[index]);
        MulComm(v[index], coeff);
        var tmp := v[index];
        if coeff != 1 {
          tmp := Mul(tmp, coeff);
        }
        AddAssoc(start, EvalTerms(t.values[..i], v), tmp);
        acc := Add(acc, tmp);
      }
      assert t.values[..|t.values|] == t.values;
    }
  }
}
