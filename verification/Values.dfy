// Runtime values that flow along a pipeline, and the Arrow codec of the
// intermediates cache.
module Values {
  import opened Wrappers
  import opened Sequences
  import opened PyText

  datatype Value =
    | Str(s: string)
    | Num(n: int)
    | Frame(names: seq<string>, columns: seq<seq<int>>, rangeIndex: bool) // pandas DataFrame
    | Series(name: string, column: seq<int>)                              // pandas Series
    | Vector(column: seq<int>)                                            // 1-D ndarray
    | Matrix(columns: seq<seq<int>>)                                      // 2-D ndarray
    | Arrow(table: Table)                                                 // pyarrow.Table
    | Tuple(items: seq<Value>)                                            // Python tuple or list
    | Opaque(id: int)                                                     // estimators and the like
    | Raised                                                              // the call raised

  datatype Table = Table(names: seq<string>, columns: seq<seq<int>>)

  function MatrixNames(width: nat): (names: seq<string>)
    ensures |names| == width
    ensures forall i :: 0 <= i < width ==> names[i] == "_c" + Digits(i)
  {
    seq(width, (i: nat) => "_c" + Digits(i))
  }

  predicate IsMatrixName(name: string) {
    "_c" <= name
  }

  /** `_native_to_arrow`: None is the source's "we do not know how to store this". */
  function NativeToArrow(v: Value): Option<Table> {
    match v
    case Arrow(t) => Some(t)
    case Frame(names, columns, _) => if Distinct(names) then Some(Table(names, columns)) else None
    case Series(name, column) => Some(Table([name], [column]))
    case Vector(column) => Some(Table(["_v"], [column]))
    case Matrix(columns) => Some(Table(MatrixNames(|columns|), columns))
    case _ => None
  }

  /** `_arrow_to_native`: stacking no column at all raises, and falls through to pandas. */
  function ArrowToNative(t: Table): Value {
    if t.names == ["_v"] && |t.columns| == 1 then Vector(t.columns[0])
    else if (forall i :: 0 <= i < |t.names| ==> IsMatrixName(t.names[i])) && |t.columns| > 0 then Matrix(t.columns)
    else Frame(t.names, t.columns, true)
  }

  ghost predicate WellShaped(v: Value) {
    match v
    case Frame(names, columns, _) => |names| == |columns|
    case Arrow(t) => |t.names| == |t.columns|
    case _ => true
  }

  ghost predicate RoundTrips(v: Value) {
    match NativeToArrow(v)
    case Some(t) => ArrowToNative(t) == v
    case None => true
  }

  /** The values the cache hands back as they were put in. */
  ghost predicate KeepsItsShape(v: Value) {
    match v
    case Frame(names, columns, rangeIndex) =>
      Distinct(names) ==>
        rangeIndex && names != ["_v"] && (names == [] || exists i :: 0 <= i < |names| && !IsMatrixName(names[i]))
    case Series(_, _) => false
    case Arrow(_) => false
    case Matrix(columns) => |columns| > 0
    case _ => true
  }

  /** A cached value comes back unchanged exactly when it keeps its shape: a Series, a raw
      Arrow table, a re-indexed frame, a column-less matrix, and frames whose column
      names look like the codec's own markers all come back as something else. */
  lemma RoundTripsIff(v: Value)
    requires WellShaped(v)
    ensures RoundTrips(v) <==> KeepsItsShape(v)
  {
    match v
    case Frame(names, columns, _) =>
      if Distinct(names) && names != [] && names != ["_v"] && forall i :: 0 <= i < |names| ==> IsMatrixName(names[i]) {
        assert ArrowToNative(Table(names, columns)).Matrix?;
      }
    case Matrix(columns) =>
      var t := Table(MatrixNames(|columns|), columns);
      if |columns| > 0 {
        assert t.names[0][1] == 'c';
        assert t.names != ["_v"];
      }
    case _ =>
  }

  /** What a value that is stored comes back as: the columns are kept, the shape is read off the names. */
  lemma ComesBackAs(v: Value)
    requires WellShaped(v) && NativeToArrow(v).Some?
    ensures var back := ArrowToNative(NativeToArrow(v).value);
            match v
            case Vector(column) => back == v
            case Matrix(columns) => back == if columns == [] then Frame([], [], true) else v
            case Series(name, column) =>
              if name == "_v" then back == Vector(column)
              else if "_c" <= name then back == Matrix([column])
              else back == Frame([name], [column], true)
            case Frame(names, columns, _) => ReadByName(names, columns, back)
            case Arrow(t) => ReadByName(t.names, t.columns, back)
            case _ => false
    ensures v.Frame? ==> forall i, j :: 0 <= i < j < |v.names| ==> v.names[i] != v.names[j]
  {
    match v
    case Matrix(columns) =>
      if columns != [] {
        assert MatrixNames(|columns|)[0][1] == 'c';
      }
    case _ =>
  }

  /** One column `_v` is a vector, columns all `_c*` are a matrix, and anything else, no column at all too, is a
      frame. */
  ghost predicate ReadByName(names: seq<string>, columns: seq<seq<int>>, back: Value)
    requires |names| == |columns|
  {
    if names == ["_v"] then back == Vector(columns[0])
    else if names != [] && forall i :: 0 <= i < |names| ==> "_c" <= names[i] then back == Matrix(columns)
    else back == Frame(names, columns, true)
  }

  /** A matrix is stored under the names _c0, _c1, and so on, a vector under _v, a frame and a series under their
      own. */
  lemma StoredUnder(v: Value)
    requires NativeToArrow(v).Some? && !v.Arrow?
    ensures var t := NativeToArrow(v).value;
            match v
            case Vector(column) => t.names == ["_v"] && t.columns == [column]
            case Matrix(columns) =>
              t.columns == columns && |t.names| == |columns| &&
              forall i :: 0 <= i < |columns| ==> t.names[i] == "_c" + Digits(i)
            case Series(name, column) => t.names == [name] && t.columns == [column]
            case Frame(names, columns, _) => t.names == names && t.columns == columns
            case _ => false
  {
  }
}
