/** The argument checks of the information-measure object `info`: the shape of
    the data matrix in its constructor, and __check_xyindex, which validates the
    positions of the x / y / z variable groups and records them in the fields
    xlastind, ylastind and zlastind. */
module InfoIndex {
  import opened Outcomes

  /** The `xyindex` argument: None, a list of ints, or anything else. */
  datatype XYIndex = NoIndex | IndexList(ids: seq<int>) | OtherType

  /** The index fields __check_xyindex assigns; `None` leaves a field as it was. */
  datatype Assigned = Assigned(x: Option<int>, y: Option<int>, z: Option<int>)

  const Unassigned := Assigned(None, None, None)

  /** The number of data points and of data columns the constructor takes from
      the shape of `data`; a one-dimensional array is a single column when
      `ncase` is 1. */
  function DataShape(ncase: int, shape: seq<nat>): (r: Result<(nat, nat)>)
    ensures r.Ok? ==> 1 <= |shape| <= 2 && r.value.0 == shape[0] && ncase <= r.value.1
  {
    if |shape| > 2 then Err(DataNotMatrix)
    else
      var dims := if ncase == 1 && |shape| == 1 then [shape[0], 1] else shape;
      if |dims| != 2 then Err(ShapeNotUnpackable)
      else if ncase > dims[1] then Err(CaseExceedsColumns)
      else Ok((dims[0], dims[1]))
  }

  /** The shape is accepted exactly when it is a matrix, or a vector for a
      one-dimensional case, with at least `ncase` columns; the first failing
      check names the error. */
  lemma DataShapeAccepts(ncase: int, shape: seq<nat>)
    ensures var cols := if |shape| == 1 then 1 else if |shape| == 2 then shape[1] else 0;
            DataShape(ncase, shape).Ok? <==>
              (|shape| == 2 || (|shape| == 1 && ncase == 1)) && ncase <= cols
    ensures |shape| > 2 ==> DataShape(ncase, shape) == Err(DataNotMatrix)
    ensures (|shape| == 0 || (|shape| == 1 && ncase != 1)) ==> DataShape(ncase, shape) == Err(ShapeNotUnpackable)
    ensures DataShape(ncase, shape).Ok? ==>
              DataShape(ncase, shape).value == (shape[0], if |shape| == 1 then 1 else shape[1])
  {
  }

  /** The fields __check_xyindex assigns, or its exception. A list is only
      bounded above by `ndim`; cases other than 1, 2 and 3 are not checked.
      Without an index nothing raises, and an argument that is no list passes
      only outside those cases, assigning nothing. */
  function XYIndexCheck(ncase: int, conditioned: bool, xyindex: XYIndex, ndim: int): (r: Result<Assigned>)
    ensures xyindex.NoIndex? ==> r.Ok?
    ensures r.Err? ==> ncase in {1, 2, 3}
    ensures xyindex.OtherType? && r.Ok? ==> r.value == Unassigned
  {
    if ncase !in {1, 2, 3} then Ok(Unassigned)
    else match xyindex
      case OtherType => Err(UnknownXYIndexType)
      case NoIndex => Ok(DefaultIndices(ncase, conditioned))
      case IndexList(ids) =>
        if ncase == 1 && !conditioned then Ok(Unassigned)
        else
          var want := if conditioned then ncase else ncase - 1;
          if |ids| == want && Ascending(ids, ndim) then Ok(FromList(ids))
          else Err(XYIndexIncorrect(ncase))
  }

  /** The defaults for `xyindex is None`: the first variable groups end at
      columns 1, 2 and 3. */
  function DefaultIndices(ncase: int, conditioned: bool): Assigned
  {
    var n := if conditioned then ncase else ncase - 1;
    FromList(if n <= 0 then [] else if n == 1 then [1] else if n == 2 then [1, 2] else [1, 2, 3])
  }

  /** The fields a list of one to three indices fills, in order. */
  function FromList(ids: seq<int>): Assigned
  {
    Assigned(if |ids| >= 1 then Some(ids[0]) else None,
             if |ids| >= 2 then Some(ids[1]) else None,
             if |ids| >= 3 then Some(ids[2]) else None)
  }

  /** Each index is below the next, and the last is at most `ndim`. */
  predicate Ascending(ids: seq<int>, ndim: int)
  {
    (forall i | 0 <= i < |ids| - 1 :: ids[i] < ids[i + 1]) && (ids != [] ==> ids[|ids| - 1] <= ndim)
  }

  /** The conditioned 3-D case accepts exactly a strictly increasing list of
      three entries ending at most at `ndim`, and stores its entries. */
  lemma Conditioned3D(ids: seq<int>, ndim: int)
    ensures XYIndexCheck(3, true, IndexList(ids), ndim).Ok? <==>
              |ids| == 3 && ids[0] < ids[1] < ids[2] <= ndim
    ensures XYIndexCheck(3, true, IndexList(ids), ndim).Ok? ==>
              XYIndexCheck(3, true, IndexList(ids), ndim).value == Assigned(Some(ids[0]), Some(ids[1]), Some(ids[2]))
    ensures XYIndexCheck(3, true, IndexList(ids), ndim).Err? ==>
              XYIndexCheck(3, true, IndexList(ids), ndim).error == XYIndexIncorrect(3)
  {
  }

  /** The conditioned 2-D and unconditioned 3-D cases accept exactly a list of
      two increasing entries ending at most at `ndim`. */
  lemma TwoEntries(ncase: int, conditioned: bool, ids: seq<int>, ndim: int)
    requires (ncase == 2 && conditioned) || (ncase == 3 && !conditioned)
    ensures XYIndexCheck(ncase, conditioned, IndexList(ids), ndim).Ok? <==>
              |ids| == 2 && ids[0] < ids[1] <= ndim
    ensures XYIndexCheck(ncase, conditioned, IndexList(ids), ndim).Ok? ==>
              XYIndexCheck(ncase, conditioned, IndexList(ids), ndim).value == Assigned(Some(ids[0]), Some(ids[1]), None)
  {
  }

  /** The unconditioned 2-D and conditioned 1-D cases accept exactly a single
      entry of at most `ndim`; the unconditioned 1-D case ignores any list. */
  lemma OneEntry(ncase: int, conditioned: bool, ids: seq<int>, ndim: int)
    requires (ncase == 2 && !conditioned) || (ncase == 1 && conditioned)
    ensures XYIndexCheck(ncase, conditioned, IndexList(ids), ndim).Ok? <==> |ids| == 1 && ids[0] <= ndim
    ensures XYIndexCheck(ncase, conditioned, IndexList(ids), ndim).Ok? ==>
              XYIndexCheck(ncase, conditioned, IndexList(ids), ndim).value == Assigned(Some(ids[0]), None, None)
    ensures XYIndexCheck(1, false, IndexList(ids), ndim) == Ok(Unassigned)
  {
  }

  /** Without `xyindex` the defaults are taken, and any other type of argument
      raises for the cases 1 to 3. */
  lemma DefaultsAndTypes(ncase: int, conditioned: bool, ndim: int)
    requires ncase in {1, 2, 3}
    ensures XYIndexCheck(ncase, conditioned, OtherType, ndim) == Err(UnknownXYIndexType)
    ensures XYIndexCheck(ncase, conditioned, NoIndex, ndim).Ok?
    ensures var a := XYIndexCheck(ncase, conditioned, NoIndex, ndim).value;
            var n := if conditioned then ncase else ncase - 1;
            a.x == (if n >= 1 then Some(1) else None) &&
            a.y == (if n >= 2 then Some(2) else None) &&
            a.z == (if n >= 3 then Some(3) else None)
  {
  }

  /** Only an upper bound is checked: an index of 0, or a negative one, is accepted. */
  lemma NoLowerBound(ndim: int)
    requires ndim >= 1
    ensures XYIndexCheck(3, true, IndexList([-1, 0, ndim]), ndim).Ok?
    ensures XYIndexCheck(2, false, IndexList([0]), ndim) == Ok(Assigned(Some(0), None, None))
  {
  }

  /** The constructor's checks followed by __check_xyindex with the number of
      data columns. */
  function Construct(ncase: int, shape: seq<nat>, conditioned: bool, xyindex: XYIndex)
    : Result<(nat, nat, Assigned)>
  {
    var (npts, ndim) :- DataShape(ncase, shape);
    var a :- XYIndexCheck(ncase, conditioned, xyindex, ndim);
    Ok((npts, ndim, a))
  }

  /** The number of index fields that are set. */
  function Count(a: Assigned): nat
  {
    (if a.x.Some? then 1 else 0) + (if a.y.Some? then 1 else 0) + (if a.z.Some? then 1 else 0)
  }

  /** The fields set form a prefix x, y, z of strictly increasing indices, the
      last at most `ndim`. */
  predicate Chain(a: Assigned, ndim: int)
  {
    match a
    case Assigned(None, None, None) => true
    case Assigned(Some(x), None, None) => x <= ndim
    case Assigned(Some(x), Some(y), None) => x < y <= ndim
    case Assigned(Some(x), Some(y), Some(z)) => x < y < z <= ndim
    case _ => false
  }

  /** A constructed object of case 1 to 3 holds one index per variable group
      (one fewer when unconditioned, except that an unconditioned 1-D object
      given a list keeps none), increasing and within the data columns; the
      defaults fit because the case never exceeds the columns. */
  lemma ConstructedIndicesFit(ncase: int, shape: seq<nat>, conditioned: bool, xyindex: XYIndex)
    requires ncase in {1, 2, 3} && Construct(ncase, shape, conditioned, xyindex).Ok?
    ensures var (_, ndim, a) := Construct(ncase, shape, conditioned, xyindex).value;
            Chain(a, ndim) &&
            Count(a) == (if conditioned then ncase else ncase - 1)
  {
    var (npts, ndim) := DataShape(ncase, shape).value;
    assert ncase <= ndim;
    if xyindex.IndexList? && (conditioned || ncase != 1) {
      var ids := xyindex.ids;
      assert Ascending(ids, ndim);
      if |ids| >= 2 {
        assert ids[0] < ids[1];
      }
      if |ids| == 3 {
        assert ids[1] < ids[2];
      }
    }
  }

  /** The object `info`, reduced to the fields its argument checks set. */
  class Info {
    var ncase: int
    var conditioned: bool
    var npts: nat
    var xlastind: Option<int>
    var ylastind: Option<int>
    var zlastind: Option<int>

    /** A fresh object with no index field set yet. */
    constructor (ncase: int, conditioned: bool, npts: nat)
      ensures this.ncase == ncase && this.conditioned == conditioned && this.npts == npts
      ensures xlastind == None && ylastind == None && zlastind == None
    {
      this.ncase := ncase;
      this.conditioned := conditioned;
      this.npts := npts;
      xlastind, ylastind, zlastind := None, None, None;
    }

    /** __check_xyindex: assigns the index fields for the case, or raises and
        leaves the object as it was. */
    method CheckXYIndex(xyindex: XYIndex, ndim: int) returns (r: Result<()>)
      modifies this
      ensures ncase == old(ncase) && conditioned == old(conditioned) && npts == old(npts)
      ensures var s := XYIndexCheck(ncase, conditioned, xyindex, ndim);
              (s.Err? ==> r == Err(s.error) && unchanged(this)) &&
              (s.Ok? ==>
                 r.Ok? &&
                 xlastind == (if s.value.x.Some? then s.value.x else old(xlastind)) &&
                 ylastind == (if s.value.y.Some? then s.value.y else old(ylastind)) &&
                 zlastind == (if s.value.z.Some? then s.value.z else old(zlastind)))
    {
      r := Ok(());
      if ncase == 1 {
        match xyindex {
          case NoIndex =>
            if conditioned {
              xlastind := Some(1);
            }
          case IndexList(ids) =>
            if conditioned {
              if |ids| == 1 && ids[0] <= ndim {
                xlastind := Some(ids[0]);
              } else {
                r := Err(XYIndexIncorrect(1));
              }
            }
          case OtherType =>
            r := Err(UnknownXYIndexType);
        }
      } else if ncase == 2 {
        match xyindex {
          case NoIndex =>
            if !conditioned {
              xlastind := Some(1);
            } else {
              xlastind, ylastind := Some(1), Some(2);
            }
          case IndexList(ids) =>
            if conditioned {
              if |ids| == 2 && ids[0] < ids[1] && ids[1] <= ndim {
                xlastind, ylastind := Some(ids[0]), Some(ids[1]);
              } else {
                r := Err(XYIndexIncorrect(2));
              }
            } else {
              if |ids| == 1 && ids[0] <= ndim {
                xlastind := Some(ids[0]);
              } else {
                r := Err(XYIndexIncorrect(2));
              }
            }
          case OtherType =>
            r := Err(UnknownXYIndexType);
        }
      } else if ncase == 3 {
        match xyindex {
          case NoIndex =>
            if !conditioned {
              xlastind, ylastind := Some(1), Some(2);
            } else {
              xlastind, ylastind, zlastind := Some(1), Some(2), Some(3);
            }
          case IndexList(ids) =>
            if conditioned {
              if |ids| == 3 && ids[0] < ids[1] && ids[1] < ids[2] && ids[2] <= ndim {
                xlastind, ylastind, zlastind := Some(ids[0]), Some(ids[1]), Some(ids[2]);
              } else {
                r := Err(XYIndexIncorrect(3));
              }
            } else {
              if |ids| == 2 && ids[0] < ids[1] && ids[1] <= ndim {
                xlastind, ylastind := Some(ids[0]), Some(ids[1]);
              } else {
                r := Err(XYIndexIncorrect(3));
              }
            }
          case OtherType =>
            r := Err(UnknownXYIndexType);
        }
      }
    }
  }

  /** The constructor up to its index check: the shape checks, then a fresh
      object whose index fields __check_xyindex has set. */
  method NewInfo(ncase: int, shape: seq<nat>, conditioned: bool, xyindex: XYIndex) returns (r: Result<Info>)
    ensures Construct(ncase, shape, conditioned, xyindex).Err? ==>
              r == Err(Construct(ncase, shape, conditioned, xyindex).error)
    ensures Construct(ncase, shape, conditioned, xyindex).Ok? ==>
              (r.Ok? && fresh(r.value) &&
               var (npts, _, a) := Construct(ncase, shape, conditioned, xyindex).value;
               r.value.ncase == ncase && r.value.conditioned == conditioned && r.value.npts == npts &&
               r.value.xlastind == a.x && r.value.ylastind == a.y && r.value.zlastind == a.z)
  {
    var dims := DataShape(ncase, shape);
    if dims.Err? {
      return Err(dims.error);
    }
    var (npts, ndimdata) := dims.value;
    var info := new Info(ncase, conditioned, npts);
    var checked := info.CheckXYIndex(xyindex, ndimdata);
    if checked.Err? {
      return Err(checked.error);
    }
    r := Ok(info);
  }
}
