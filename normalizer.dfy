/**
 * The resource description normaliser (functions.py:29-104): the rows of one
 * SPARQL query, each binding `p`, `o` and, below a blank-node object, `p1`,
 * `o1` and `p2`, `o2`, are folded into a nested object at most three levels
 * deep. A blank-node object becomes a sub-object that later rows with the same
 * predicate merge into; any other object becomes its value string, and the
 * last such row wins.
 */
module Normalizer {
  import opened Wrappers
  import opened Sparql
  import Template
  import Queries

  /** A JSON value of the described resource: a string or an object. */
  datatype Value = Leaf(text: string) | Node(entries: map<string, Value>)

  type Object = map<string, Value>

  /* ---------------------------------------------------------------------- */
  /* The fold, row by row, as the loop performs it                           */
  /* ---------------------------------------------------------------------- */

  /** One row folded into the object built so far. */
  function Step(acc: Object, b: Binding): Result<Object, Error>
  {
    if "p" !in b then Err(Unbound("p"))
    else if "o" !in b then Err(Unbound("o"))
    else
      var pred := b["p"].value;
      if b["o"].kind != BNode then Ok(acc[pred := Leaf(b["o"].value)])
      else
        var obj := if pred in acc then acc[pred] else Node(map[]);
        match Nest(obj, pred, b)
        case Ok(v) => Ok(acc[pred := v])
        case Err(e) => Err(e)
  }

  /** A blank-node row merged into `obj`, the value already reached at its predicate `pred`. */
  function Nest(obj: Value, pred: string, b: Binding): Result<Value, Error>
  {
    if "p1" !in b then Err(Unbound("p1"))
    else if "o1" !in b then Err(Unbound("o1"))
    else if obj.Leaf? then Err(NotAMapping(pred))
    else
      var pred1 := b["p1"].value;
      if b["o1"].kind != BNode then Ok(Node(obj.entries[pred1 := Leaf(b["o1"].value)]))
      else
        var obj1 := if pred1 in obj.entries then obj.entries[pred1] else Node(map[]);
        if "p2" !in b then Err(Unbound("p2"))
        else if "o2" !in b then Err(Unbound("o2"))
        else if obj1.Leaf? then Err(NotAMapping(pred1))
        else Ok(Node(obj.entries[pred1 := Node(obj1.entries[b["p2"].value := Leaf(b["o2"].value)])]))
  }

  /** All rows folded in order; the first failing row's error ends the fold. */
  function Fold(rows: seq<Binding>): Result<Object, Error>
    decreases |rows|
  {
    if rows == [] then Ok(map[])
    else
      match Fold(rows[..|rows| - 1])
      case Err(e) => Err(e)
      case Ok(acc) => Step(acc, rows[|rows| - 1])
  }

  /** The described resource; a response without `results` describes nothing. */
  function Normalize(resp: Response): Result<Object, Error>
  {
    match resp
    case None => Ok(map[])
    case Some(rows) => Fold(rows)
  }

  /** The request `get_resource` sends for `resourceUri`, with the endpoint's default paging. */
  function ResourceRequest(resourceUri: string): Query
  {
    Request(Template.Substitute(Queries.ResourceTemplate(), resourceUri), 1000, 0)
  }

  /* ---------------------------------------------------------------------- */
  /* What the result is, stated without the fold                             */
  /* ---------------------------------------------------------------------- */

  /** The variables a row needs: `p`, `o`; `p1`, `o1` below a blank `o`; `p2`, `o2` below a blank `o1`. */
  predicate Bound(b: Binding)
  {
    && "p" in b && "o" in b
    && (IsBlank(b, "o") ==> "p1" in b && "o1" in b)
    && (IsBlank(b, "o") && IsBlank(b, "o1") ==> "p2" in b && "o2" in b)
  }

  /**
   * An earlier row that leaves a string where a later blank-node row must index:
   * a plain object at the same `p`, or a plain `o1` at the same `p` and `p1`
   * where the later row's `o1` is blank.
   */
  predicate Blocks(earlier: Binding, later: Binding)
  {
    && Val(earlier, "p") == Val(later, "p")
    && IsBlank(later, "o")
    && (|| !IsBlank(earlier, "o")
        || (Val(earlier, "p1") == Val(later, "p1") && IsBlank(later, "o1") && !IsBlank(earlier, "o1")))
  }

  /** Every row binds what it needs and no row is blocked by an earlier one. */
  ghost predicate WellFormed(rows: seq<Binding>)
  {
    && (forall i | 0 <= i < |rows| :: Bound(rows[i]))
    && (forall i, j | 0 <= i < j < |rows| :: !Blocks(rows[i], rows[j]))
  }

  /** A row with a blank object under predicate `p`. */
  predicate BlankAt(b: Binding, p: string)
  {
    Val(b, "p") == p && IsBlank(b, "o")
  }

  /** A row with a blank object under predicate `p` whose inner predicate is `p1`. */
  predicate BlankAt1(b: Binding, p: string, p1: string)
  {
    BlankAt(b, p) && Val(b, "p1") == p1
  }

  /** A row with blank `o` and blank `o1` under `p`, `p1`, whose innermost predicate is `p2`. */
  predicate BlankAt2(b: Binding, p: string, p1: string, p2: string)
  {
    BlankAt1(b, p, p1) && IsBlank(b, "o1") && Val(b, "p2") == p2
  }

  /** The last row with predicate `p`. */
  ghost function LastFor(rows: seq<Binding>, p: string): Option<Binding>
    decreases |rows|
  {
    if rows == [] then None
    else if Val(rows[|rows| - 1], "p") == p then Some(rows[|rows| - 1])
    else LastFor(rows[..|rows| - 1], p)
  }

  /** The last blank row for `p` with inner predicate `p1`. */
  ghost function LastFor1(rows: seq<Binding>, p: string, p1: string): Option<Binding>
    decreases |rows|
  {
    if rows == [] then None
    else if BlankAt1(rows[|rows| - 1], p, p1) then Some(rows[|rows| - 1])
    else LastFor1(rows[..|rows| - 1], p, p1)
  }

  /** The `o2` value of the last doubly blank row for `p`, `p1`, `p2`. */
  ghost function LastO2(rows: seq<Binding>, p: string, p1: string, p2: string): string
    decreases |rows|
  {
    if rows == [] then ""
    else if BlankAt2(rows[|rows| - 1], p, p1, p2) then Val(rows[|rows| - 1], "o2")
    else LastO2(rows[..|rows| - 1], p, p1, p2)
  }

  /** The predicates of all rows. */
  ghost function Keys0(rows: seq<Binding>): set<string>
  {
    set b | b in rows :: Val(b, "p")
  }

  /** The inner predicates of the blank rows for `p`. */
  ghost function Keys1(rows: seq<Binding>, p: string): set<string>
  {
    set b | b in rows && BlankAt(b, p) :: Val(b, "p1")
  }

  /** The innermost predicates of the doubly blank rows for `p`, `p1`. */
  ghost function Keys2(rows: seq<Binding>, p: string, p1: string): set<string>
  {
    set b | b in rows && BlankAt1(b, p, p1) && IsBlank(b, "o1") :: Val(b, "p2")
  }

  /** The expected object: one entry per predicate. */
  ghost function Expected(rows: seq<Binding>): Object
  {
    map p | p in Keys0(rows) :: Entry(rows, p)
  }

  /** The value at `p`: the last row's string when that row is plain, else the merged sub-object. */
  ghost function Entry(rows: seq<Binding>, p: string): Value
  {
    var last := LastFor(rows, p);
    if last.Some? && !IsBlank(last.value, "o") then Leaf(Val(last.value, "o"))
    else Node(Sub(rows, p))
  }

  /** The sub-object at `p`: one entry per inner predicate of the blank rows for `p`. */
  ghost function Sub(rows: seq<Binding>, p: string): Object
  {
    map p1 | p1 in Keys1(rows, p) :: Entry1(rows, p, p1)
  }

  /** The value at `p`, `p1`: the last such row's `o1` string when it is plain, else the merged innermost object. */
  ghost function Entry1(rows: seq<Binding>, p: string, p1: string): Value
  {
    var last := LastFor1(rows, p, p1);
    if last.Some? && !IsBlank(last.value, "o1") then Leaf(Val(last.value, "o1"))
    else Node(Sub2(rows, p, p1))
  }

  /** The innermost object at `p`, `p1`: each `p2` maps to the last `o2` string for it. */
  ghost function Sub2(rows: seq<Binding>, p: string, p1: string): Object
  {
    map p2 | p2 in Keys2(rows, p, p1) :: Leaf(LastO2(rows, p, p1, p2))
  }

  /* ---------------------------------------------------------------------- */
  /* One more row: how each part of the expected object changes              */
  /* ---------------------------------------------------------------------- */

  lemma LastForSnoc(rows: seq<Binding>, b: Binding, p: string)
    ensures LastFor(rows + [b], p) == if Val(b, "p") == p then Some(b) else LastFor(rows, p)
  {
    assert (rows + [b])[..|rows|] == rows;
  }

  lemma LastFor1Snoc(rows: seq<Binding>, b: Binding, p: string, p1: string)
    ensures LastFor1(rows + [b], p, p1) == if BlankAt1(b, p, p1) then Some(b) else LastFor1(rows, p, p1)
  {
    assert (rows + [b])[..|rows|] == rows;
  }

  lemma LastO2Snoc(rows: seq<Binding>, b: Binding, p: string, p1: string, p2: string)
    ensures LastO2(rows + [b], p, p1, p2) == if BlankAt2(b, p, p1, p2) then Val(b, "o2") else LastO2(rows, p, p1, p2)
  {
    assert (rows + [b])[..|rows|] == rows;
  }

  lemma Keys0Snoc(rows: seq<Binding>, b: Binding)
    ensures Keys0(rows + [b]) == Keys0(rows) + {Val(b, "p")}
  {
    assert b in rows + [b];
  }

  lemma Keys1Snoc(rows: seq<Binding>, b: Binding, p: string)
    ensures Keys1(rows + [b], p) == Keys1(rows, p) + (if BlankAt(b, p) then {Val(b, "p1")} else {})
  {
    assert b in rows + [b];
  }

  lemma Keys2Snoc(rows: seq<Binding>, b: Binding, p: string, p1: string)
    ensures Keys2(rows + [b], p, p1)
         == Keys2(rows, p, p1) + (if BlankAt1(b, p, p1) && IsBlank(b, "o1") then {Val(b, "p2")} else {})
  {
    assert b in rows + [b];
  }

  lemma Sub2Snoc(rows: seq<Binding>, b: Binding, p: string, p1: string)
    ensures Sub2(rows + [b], p, p1)
         == if BlankAt1(b, p, p1) && IsBlank(b, "o1")
            then Sub2(rows, p, p1)[Val(b, "p2") := Leaf(Val(b, "o2"))]
            else Sub2(rows, p, p1)
  {
    Keys2Snoc(rows, b, p, p1);
    forall p2 | p2 in Keys2(rows + [b], p, p1) {
      LastO2Snoc(rows, b, p, p1, p2);
    }
  }

  lemma Entry1Snoc(rows: seq<Binding>, b: Binding, p: string, p1: string)
    ensures Entry1(rows + [b], p, p1)
         == if !BlankAt1(b, p, p1) then Entry1(rows, p, p1)
            else if IsBlank(b, "o1") then Node(Sub2(rows + [b], p, p1))
            else Leaf(Val(b, "o1"))
  {
    LastFor1Snoc(rows, b, p, p1);
    Sub2Snoc(rows, b, p, p1);
  }

  lemma SubSnoc(rows: seq<Binding>, b: Binding, p: string)
    ensures Sub(rows + [b], p)
         == if BlankAt(b, p) then Sub(rows, p)[Val(b, "p1") := Entry1(rows + [b], p, Val(b, "p1"))]
            else Sub(rows, p)
  {
    Keys1Snoc(rows, b, p);
    forall p1 | p1 in Keys1(rows + [b], p) {
      Entry1Snoc(rows, b, p, p1);
    }
  }

  lemma EntrySnoc(rows: seq<Binding>, b: Binding, p: string)
    ensures Entry(rows + [b], p)
         == if Val(b, "p") != p then Entry(rows, p)
            else if IsBlank(b, "o") then Node(Sub(rows + [b], p))
            else Leaf(Val(b, "o"))
  {
    LastForSnoc(rows, b, p);
    SubSnoc(rows, b, p);
  }

  lemma ExpectedSnoc(rows: seq<Binding>, b: Binding)
    ensures Expected(rows + [b]) == Expected(rows)[Val(b, "p") := Entry(rows + [b], Val(b, "p"))]
  {
    Keys0Snoc(rows, b);
    forall p | p in Keys0(rows + [b]) {
      EntrySnoc(rows, b, p);
    }
  }

  lemma SubOfAbsent(rows: seq<Binding>, p: string)
    requires p !in Keys0(rows)
    ensures Sub(rows, p) == map[]
  {
  }

  lemma Sub2OfAbsent(rows: seq<Binding>, p: string, p1: string)
    requires p1 !in Keys1(rows, p)
    ensures Sub2(rows, p, p1) == map[]
  {
  }

  /* ---------------------------------------------------------------------- */
  /* Well-formedness, one row at a time                                      */
  /* ---------------------------------------------------------------------- */

  lemma WellFormedSnoc(rows: seq<Binding>, b: Binding)
    ensures WellFormed(rows + [b]) <==> WellFormed(rows) && Bound(b) && forall e | e in rows :: !Blocks(e, b)
  {
    var rs := rows + [b];
    assert rs[|rows|] == b;
    assert forall i | 0 <= i < |rows| :: rs[i] == rows[i];
    if WellFormed(rs) {
      assert Bound(rs[|rows|]);
      forall e | e in rows ensures !Blocks(e, b) {
        var i :| 0 <= i < |rows| && rows[i] == e;
        assert !Blocks(rs[i], rs[|rows|]);
      }
    }
    if WellFormed(rows) && Bound(b) && forall e | e in rows :: !Blocks(e, b) {
      forall i, j | 0 <= i < j < |rs| ensures !Blocks(rs[i], rs[j]) {
        if j == |rows| {
          assert rows[i] in rows;
        }
      }
    }
  }

  /** In well-formed rows, the last row for `p` is plain exactly when some row for `p` is. */
  lemma {:induction false} PlainLastFor(rows: seq<Binding>, p: string)
    requires WellFormed(rows)
    ensures (LastFor(rows, p).Some? && !IsBlank(LastFor(rows, p).value, "o"))
        <==> exists e | e in rows :: Val(e, "p") == p && !IsBlank(e, "o")
    decreases |rows|
  {
    if rows != [] {
      var init, b := rows[..|rows| - 1], rows[|rows| - 1];
      assert rows == init + [b];
      WellFormedSnoc(init, b);
      PlainLastFor(init, p);
      LastForSnoc(init, b, p);
      if BlankAt(b, p) {
        forall e | e in init && Val(e, "p") == p ensures IsBlank(e, "o") {
          assert !Blocks(e, b);
        }
      }
    }
  }

  /** In well-formed rows, the last blank row for `p`, `p1` has a plain `o1` exactly when some such row has. */
  lemma {:induction false} PlainLastFor1(rows: seq<Binding>, p: string, p1: string)
    requires WellFormed(rows)
    ensures (LastFor1(rows, p, p1).Some? && !IsBlank(LastFor1(rows, p, p1).value, "o1"))
        <==> exists e | e in rows :: BlankAt1(e, p, p1) && !IsBlank(e, "o1")
    decreases |rows|
  {
    if rows != [] {
      var init, b := rows[..|rows| - 1], rows[|rows| - 1];
      assert rows == init + [b];
      WellFormedSnoc(init, b);
      PlainLastFor1(init, p, p1);
      LastFor1Snoc(init, b, p, p1);
      if BlankAt1(b, p, p1) && IsBlank(b, "o1") {
        forall e | e in init && BlankAt1(e, p, p1) ensures IsBlank(e, "o1") {
          assert !Blocks(e, b);
        }
      }
    }
  }

  /* ---------------------------------------------------------------------- */
  /* The fold computes the expected object exactly when the rows are well formed */
  /* ---------------------------------------------------------------------- */

  /** One row folded into the expected object of the rows before it. */
  lemma StepExpected(rows: seq<Binding>, b: Binding)
    requires WellFormed(rows)
    ensures Step(Expected(rows), b).Ok? <==> WellFormed(rows + [b])
    ensures WellFormed(rows + [b]) ==> Step(Expected(rows), b) == Ok(Expected(rows + [b]))
  {
    WellFormedSnoc(rows, b);
    ExpectedSnoc(rows, b);
    var acc := Expected(rows);
    if "p" !in b || "o" !in b {
      return;
    }
    var p := b["p"].value;
    EntrySnoc(rows, b, p);
    if !IsBlank(b, "o") {
      return;
    }
    PlainLastFor(rows, p);
    var obj := if p in acc then acc[p] else Node(map[]);
    if obj.Leaf? {
      var e :| e in rows && Val(e, "p") == p && !IsBlank(e, "o");
      assert Blocks(e, b);
      return;
    }
    if p !in acc {
      SubOfAbsent(rows, p);
    }
    assert obj == Node(Sub(rows, p));
    NestExpected(rows, b);
  }

  /**
   * A blank-node row merged into the sub-object its predicate already has,
   * when no earlier row left a string there: it succeeds exactly when the row
   * is admitted, and then yields the sub-object of the longer list.
   */
  lemma NestExpected(rows: seq<Binding>, b: Binding)
    requires WellFormed(rows) && "p" in b && "o" in b && IsBlank(b, "o")
    requires forall e | e in rows && Val(e, "p") == Val(b, "p") :: IsBlank(e, "o")
    ensures Nest(Node(Sub(rows, Val(b, "p"))), Val(b, "p"), b).Ok?
        <==> Bound(b) && forall e | e in rows :: !Blocks(e, b)
    ensures Bound(b) && (forall e | e in rows :: !Blocks(e, b)) ==>
      Nest(Node(Sub(rows, Val(b, "p"))), Val(b, "p"), b) == Ok(Node(Sub(rows + [b], Val(b, "p"))))
  {
    var p := Val(b, "p");
    if "p1" !in b || "o1" !in b {
      return;
    }
    var p1 := b["p1"].value;
    SubSnoc(rows, b, p);
    Entry1Snoc(rows, b, p, p1);
    if !IsBlank(b, "o1") {
      return;
    }
    PlainLastFor1(rows, p, p1);
    var sub := Sub(rows, p);
    var obj1 := if p1 in sub then sub[p1] else Node(map[]);
    if "p2" !in b || "o2" !in b {
      return;
    }
    if obj1.Leaf? {
      var e :| e in rows && BlankAt1(e, p, p1) && !IsBlank(e, "o1");
      assert Blocks(e, b);
      return;
    }
    if p1 !in sub {
      Sub2OfAbsent(rows, p, p1);
    }
    assert obj1 == Node(Sub2(rows, p, p1));
    Sub2Snoc(rows, b, p, p1);
  }

  /**
   * The fold succeeds exactly on well-formed rows, and then its result is the
   * expected object.
   */
  lemma {:induction false} FoldCorrect(rows: seq<Binding>)
    ensures Fold(rows).Ok? <==> WellFormed(rows)
    ensures WellFormed(rows) ==> Fold(rows) == Ok(Expected(rows))
    decreases |rows|
  {
    if rows == [] {
      assert Expected(rows) == map[];
    } else {
      var init, b := rows[..|rows| - 1], rows[|rows| - 1];
      assert rows == init + [b];
      FoldCorrect(init);
      WellFormedSnoc(init, b);
      if WellFormed(init) {
        StepExpected(init, b);
      }
    }
  }

  /** Once a prefix of the rows fails, the whole fold fails with the same error. */
  lemma {:induction false} FoldStopsAtError(rows: seq<Binding>, k: nat)
    requires k <= |rows| && Fold(rows[..k]).Err?
    ensures Fold(rows) == Fold(rows[..k])
    decreases |rows| - k
  {
    if k < |rows| {
      assert rows[..k + 1][..k] == rows[..k];
      FoldStopsAtError(rows, k + 1);
    } else {
      assert rows[..k] == rows;
    }
  }

  /* ---------------------------------------------------------------------- */
  /* get_resource                                                            */
  /* ---------------------------------------------------------------------- */

  /**
   * Queries the store for every statement about `resourceUri` and folds the
   * rows into one object.
   */
  method GetResource(store: Store, resourceUri: string) returns (r: Result<Object, Error>)
    ensures r == Normalize(store(ResourceRequest(resourceUri)))
  {
    var resp := store(ResourceRequest(resourceUri));
    r := NormalizeResponse(resp);
  }

  /**
   * The loop of `get_resource`: the object is updated row by row. No
   * `results` gives the empty object; otherwise the loop succeeds exactly on
   * well-formed rows and builds the expected object.
   */
  method NormalizeResponse(resp: Response) returns (r: Result<Object, Error>)
    ensures r == Normalize(resp)
    ensures resp.None? ==> r == Ok(map[])
    ensures resp.Some? ==>
      && (r.Ok? <==> WellFormed(resp.value))
      && (r.Ok? ==> r.value == Expected(resp.value))
  {
    var respObject: Object := map[];
    if resp.None? {
      return Ok(respObject);
    }
    var bindings := resp.value;
    var i := 0;
    while i < |bindings|
      invariant 0 <= i <= |bindings|
      invariant Fold(bindings[..i]) == Ok(respObject)
    {
      assert bindings[..i + 1][..i] == bindings[..i];
      var next := AddRow(respObject, bindings[i]);
      if next.Err? {
        FoldStopsAtError(bindings, i + 1);
        FoldCorrect(bindings);
        return Err(next.error);
      }
      respObject := next.value;
      i := i + 1;
    }
    assert bindings[..i] == bindings;
    FoldCorrect(bindings);
    return Ok(respObject);
  }

  /** The body of the loop over the rows: one row stored into the object. */
  method AddRow(respObject: Object, b: Binding) returns (r: Result<Object, Error>)
    ensures r == Step(respObject, b)
  {
    if "p" !in b {
      return Err(Unbound("p"));
    }
    var pred := b["p"].value;
    if "o" !in b {
      return Err(Unbound("o"));
    }
    var obj: Value;
    if b["o"].kind == BNode {
      if pred in respObject {
        obj := respObject[pred];
      } else {
        obj := Node(map[]);
      }
      if "p1" !in b {
        return Err(Unbound("p1"));
      }
      var pred1 := b["p1"].value;
      if "o1" !in b {
        return Err(Unbound("o1"));
      }
      if obj.Leaf? {
        return Err(NotAMapping(pred));
      }
      var obj1: Value;
      if b["o1"].kind == BNode {
        if pred1 in obj.entries {
          obj1 := obj.entries[pred1];
        } else {
          obj1 := Node(map[]);
        }
        if "p2" !in b {
          return Err(Unbound("p2"));
        }
        var pred2 := b["p2"].value;
        if "o2" !in b {
          return Err(Unbound("o2"));
        }
        if obj1.Leaf? {
          return Err(NotAMapping(pred1));
        }
        obj1 := Node(obj1.entries[pred2 := Leaf(b["o2"].value)]);
      } else {
        obj1 := Leaf(b["o1"].value);
      }
      obj := Node(obj.entries[pred1 := obj1]);
    } else {
      obj := Leaf(b["o"].value);
    }
    return Ok(respObject[pred := obj]);
  }

  /* ---------------------------------------------------------------------- */
  /* Consequences                                                            */
  /* ---------------------------------------------------------------------- */

  /** The top-level keys are exactly the predicates of the rows. */
  lemma ResultKeys(rows: seq<Binding>)
    requires Fold(rows).Ok?
    ensures Fold(rows).value.Keys == Keys0(rows)
    ensures forall i | 0 <= i < |rows| :: Val(rows[i], "p") in Fold(rows).value
  {
    FoldCorrect(rows);
    forall i | 0 <= i < |rows| ensures Val(rows[i], "p") in Keys0(rows) {
      assert rows[i] in rows;
    }
  }

  lemma {:induction false} LastForIs(rows: seq<Binding>, i: nat)
    requires i < |rows|
    requires forall j | i < j < |rows| :: Val(rows[j], "p") != Val(rows[i], "p")
    ensures LastFor(rows, Val(rows[i], "p")) == Some(rows[i])
    decreases |rows|
  {
    if i < |rows| - 1 {
      var init := rows[..|rows| - 1];
      assert init[i] == rows[i];
      assert forall j | i < j < |init| :: init[j] == rows[j];
      LastForIs(init, i);
    }
  }

  lemma {:induction false} LastFor1Is(rows: seq<Binding>, i: nat, p: string, p1: string)
    requires i < |rows| && BlankAt1(rows[i], p, p1)
    requires forall j | i < j < |rows| :: !BlankAt1(rows[j], p, p1)
    ensures LastFor1(rows, p, p1) == Some(rows[i])
    decreases |rows|
  {
    if i < |rows| - 1 {
      var init := rows[..|rows| - 1];
      assert init[i] == rows[i];
      assert forall j | i < j < |init| :: init[j] == rows[j];
      LastFor1Is(init, i, p, p1);
    }
  }

  /** A plain row that no later row with the same predicate follows wins: its value string is stored. */
  lemma LastPlainRowWins(rows: seq<Binding>, i: nat)
    requires Fold(rows).Ok? && i < |rows| && !IsBlank(rows[i], "o")
    requires forall j | i < j < |rows| :: Val(rows[j], "p") != Val(rows[i], "p")
    ensures Val(rows[i], "p") in Fold(rows).value
    ensures Fold(rows).value[Val(rows[i], "p")] == Leaf(Val(rows[i], "o"))
  {
    FoldCorrect(rows);
    LastForIs(rows, i);
    assert rows[i] in rows;
  }

  /** No plain row for `p` comes after row `i`. */
  ghost predicate NoLaterPlain(rows: seq<Binding>, i: nat, p: string)
  {
    forall j | i < j < |rows| :: !(Val(rows[j], "p") == p && !IsBlank(rows[j], "o"))
  }

  /** In well-formed rows, a blank row with no later plain row for its `p` leaves the merged sub-object at `p`. */
  lemma ExpectedBlank(rows: seq<Binding>, i: nat)
    requires WellFormed(rows) && i < |rows| && IsBlank(rows[i], "o")
    requires NoLaterPlain(rows, i, Val(rows[i], "p"))
    ensures Val(rows[i], "p") in Expected(rows)
    ensures Expected(rows)[Val(rows[i], "p")] == Node(Sub(rows, Val(rows[i], "p")))
  {
    var p := Val(rows[i], "p");
    assert rows[i] in rows;
    PlainLastFor(rows, p);
    forall e | e in rows && Val(e, "p") == p ensures IsBlank(e, "o") {
      var k :| 0 <= k < |rows| && rows[k] == e;
      if k < i {
        assert !Blocks(rows[k], rows[i]);
      }
    }
  }

  /**
   * Blank-node rows for one predicate share one sub-object: unless a plain row
   * for it comes later, the value at `p` is an object whose keys are the inner
   * predicates of all the blank rows for `p`.
   */
  lemma BlankRowsMerge(rows: seq<Binding>, i: nat)
    requires Fold(rows).Ok? && i < |rows| && IsBlank(rows[i], "o")
    requires NoLaterPlain(rows, i, Val(rows[i], "p"))
    ensures Val(rows[i], "p") in Fold(rows).value
    ensures var v := Fold(rows).value[Val(rows[i], "p")];
      && v.Node?
      && v.entries.Keys == Keys1(rows, Val(rows[i], "p"))
      && Val(rows[i], "p1") in v.entries
  {
    FoldCorrect(rows);
    ExpectedBlank(rows, i);
    assert rows[i] in rows;
  }

  /** No blank row for `p`, `p1` with a plain `o1` comes after row `i`. */
  ghost predicate NoLaterPlain1(rows: seq<Binding>, i: nat, p: string, p1: string)
  {
    forall j | i < j < |rows| :: !(BlankAt1(rows[j], p, p1) && !IsBlank(rows[j], "o1"))
  }

  /**
   * Second level, plain `o1`: the row's `o1` value is stored at `p`, `p1`
   * when no later row reaches `p`, `p1` and no later plain row replaces `p`.
   */
  lemma InnerPlainWins(rows: seq<Binding>, i: nat)
    requires Fold(rows).Ok? && i < |rows| && IsBlank(rows[i], "o") && !IsBlank(rows[i], "o1")
    requires NoLaterPlain(rows, i, Val(rows[i], "p"))
    requires forall j | i < j < |rows| :: !BlankAt1(rows[j], Val(rows[i], "p"), Val(rows[i], "p1"))
    ensures Val(rows[i], "p") in Fold(rows).value
    ensures var v := Fold(rows).value[Val(rows[i], "p")];
      v.Node? && Val(rows[i], "p1") in v.entries && v.entries[Val(rows[i], "p1")] == Leaf(Val(rows[i], "o1"))
  {
    FoldCorrect(rows);
    ExpectedBlank(rows, i);
    LastFor1Is(rows, i, Val(rows[i], "p"), Val(rows[i], "p1"));
    assert rows[i] in rows;
  }

  /** In well-formed rows, every blank row for row `i`'s `p`, `p1` has a blank `o1` when row `i` has and no later row differs. */
  lemma InnerRowsBlank(rows: seq<Binding>, i: nat)
    requires WellFormed(rows) && i < |rows| && IsBlank(rows[i], "o") && IsBlank(rows[i], "o1")
    requires NoLaterPlain1(rows, i, Val(rows[i], "p"), Val(rows[i], "p1"))
    ensures forall e | e in rows && BlankAt1(e, Val(rows[i], "p"), Val(rows[i], "p1")) :: IsBlank(e, "o1")
  {
    var p, p1 := Val(rows[i], "p"), Val(rows[i], "p1");
    forall e | e in rows && BlankAt1(e, p, p1) ensures IsBlank(e, "o1") {
      var k :| 0 <= k < |rows| && rows[k] == e;
      if k < i {
        assert !Blocks(rows[k], rows[i]);
      }
    }
  }

  /** In well-formed rows, the sub-object at `p` holds the merged innermost object at `p1`. */
  lemma ExpectedInnerBlank(rows: seq<Binding>, i: nat)
    requires WellFormed(rows) && i < |rows| && IsBlank(rows[i], "o") && IsBlank(rows[i], "o1")
    requires NoLaterPlain1(rows, i, Val(rows[i], "p"), Val(rows[i], "p1"))
    ensures Val(rows[i], "p1") in Sub(rows, Val(rows[i], "p"))
    ensures Sub(rows, Val(rows[i], "p"))[Val(rows[i], "p1")] == Node(Sub2(rows, Val(rows[i], "p"), Val(rows[i], "p1")))
  {
    InnerRowsBlank(rows, i);
    PlainLastFor1(rows, Val(rows[i], "p"), Val(rows[i], "p1"));
    assert rows[i] in rows;
  }

  /**
   * Second level, blank `o1`: rows for the same `p`, `p1` accumulate into one
   * innermost object keyed by their `p2`, whose values are strings.
   */
  lemma InnerBlankMerge(rows: seq<Binding>, i: nat)
    requires Fold(rows).Ok? && i < |rows| && IsBlank(rows[i], "o") && IsBlank(rows[i], "o1")
    requires NoLaterPlain(rows, i, Val(rows[i], "p"))
    requires NoLaterPlain1(rows, i, Val(rows[i], "p"), Val(rows[i], "p1"))
    ensures Val(rows[i], "p") in Fold(rows).value
    ensures var v := Fold(rows).value[Val(rows[i], "p")];
      && v.Node? && Val(rows[i], "p1") in v.entries
      && var w := v.entries[Val(rows[i], "p1")];
      && w.Node?
      && w.entries.Keys == Keys2(rows, Val(rows[i], "p"), Val(rows[i], "p1"))
      && Val(rows[i], "p2") in w.entries
      && forall k | k in w.entries :: w.entries[k] == Leaf(LastO2(rows, Val(rows[i], "p"), Val(rows[i], "p1"), k))
  {
    FoldCorrect(rows);
    var p, p1 := Val(rows[i], "p"), Val(rows[i], "p1");
    ExpectedBlank(rows, i);
    ExpectedInnerBlank(rows, i);
    assert Fold(rows).value[p].entries[p1].entries == Sub2(rows, p, p1);
    assert rows[i] in rows && BlankAt2(rows[i], p, p1, Val(rows[i], "p2"));
  }

  /** The `o2` of a doubly blank row that no later row for the same `p`, `p1`, `p2` follows is the last one. */
  lemma {:induction false} LastO2Is(rows: seq<Binding>, i: nat, p: string, p1: string, p2: string)
    requires i < |rows| && BlankAt2(rows[i], p, p1, p2)
    requires forall j | i < j < |rows| :: !BlankAt2(rows[j], p, p1, p2)
    ensures LastO2(rows, p, p1, p2) == Val(rows[i], "o2")
    decreases |rows|
  {
    if i < |rows| - 1 {
      var init := rows[..|rows| - 1];
      assert init[i] == rows[i];
      assert forall j | i < j < |init| :: init[j] == rows[j];
      LastO2Is(init, i, p, p1, p2);
    }
  }

  /**
   * Third level: a doubly blank row stores `p2 ↦ o2.value` in the innermost
   * object at `p`, `p1`, unless a later row writes the same `p2` there.
   */
  lemma InnerLastRowWins(rows: seq<Binding>, i: nat)
    requires Fold(rows).Ok? && i < |rows| && IsBlank(rows[i], "o") && IsBlank(rows[i], "o1")
    requires NoLaterPlain(rows, i, Val(rows[i], "p"))
    requires NoLaterPlain1(rows, i, Val(rows[i], "p"), Val(rows[i], "p1"))
    requires forall j | i < j < |rows| :: !BlankAt2(rows[j], Val(rows[i], "p"), Val(rows[i], "p1"), Val(rows[i], "p2"))
    ensures Val(rows[i], "p") in Fold(rows).value
    ensures var v := Fold(rows).value[Val(rows[i], "p")];
      && v.Node? && Val(rows[i], "p1") in v.entries
      && var w := v.entries[Val(rows[i], "p1")];
      && w.Node? && Val(rows[i], "p2") in w.entries
      && w.entries[Val(rows[i], "p2")] == Leaf(Val(rows[i], "o2"))
  {
    InnerBlankMerge(rows, i);
    LastO2Is(rows, i, Val(rows[i], "p"), Val(rows[i], "p1"), Val(rows[i], "p2"));
  }

  /** Objects nest at most three levels deep: below `p2` there are only strings. */
  ghost predicate AtMostThreeLevels(m: Object)
  {
    forall k | k in m ::
      m[k].Node? ==> forall k1 | k1 in m[k].entries ::
        m[k].entries[k1].Node? ==> forall k2 | k2 in m[k].entries[k1].entries ::
          m[k].entries[k1].entries[k2].Leaf?
  }

  lemma StepKeepsDepth(acc: Object, b: Binding)
    requires AtMostThreeLevels(acc) && Step(acc, b).Ok?
    ensures AtMostThreeLevels(Step(acc, b).value)
  {
  }

  /** Whatever the rows, a successful fold never nests deeper than `p`, `p1`, `p2`. */
  lemma {:induction false} FoldDepth(rows: seq<Binding>)
    requires Fold(rows).Ok?
    ensures AtMostThreeLevels(Fold(rows).value)
    decreases |rows|
  {
    if rows != [] {
      FoldDepth(rows[..|rows| - 1]);
      StepKeepsDepth(Fold(rows[..|rows| - 1]).value, rows[|rows| - 1]);
    }
  }
}
