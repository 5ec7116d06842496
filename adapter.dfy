/**
 * The adapter from the host's data view to the view model: role lookups over
 * the column metadata, the image-URL fallback between the two image roles,
 * and one data point per table row.
 */
module Adapter {
  import opened Types

  /** A metadata column: the roles bound to it, each flagged true or false. */
  datatype Column = Column(roles: map<string, bool>)

  /** A measure column of the categorical view, identified by its source column. */
  datatype ValueColumn = ValueColumn(source: Column)

  /** A table cell as the host delivers it. */
  datatype CellValue = Text(text: string) | Number(number: real) | Null

  /** The parts of the host's data view that the adapter reads. */
  datatype DataView = DataView(
    hasCategorySource: bool,        // categorical.categories[0].source is present
    columns: seq<Column>,           // metadata.columns
    rows: seq<seq<CellValue>>,      // table.rows
    selectionIds: seq<SelectionId>, // one identity per table row
    settings: Settings)             // already resolved against the defaults

  datatype ViewModel = ViewModel(dataPoints: seq<DataPoint>, settings: Option<Settings>)

  /** The role `role` is bound to the column and flagged true. */
  predicate HasRole(column: Column, role: string)
  {
    role in column.roles && column.roles[role]
  }

  /** The first index from `i` on whose column has the role, or -1. */
  function RoleIndexFrom(columns: seq<Column>, role: string, i: nat): (index: int)
    requires i <= |columns|
    ensures index == -1 || i <= index < |columns|
    ensures index == -1 <==> forall j :: i <= j < |columns| ==> !HasRole(columns[j], role)
    ensures index != -1 ==> HasRole(columns[index], role)
    ensures index != -1 ==> forall j :: i <= j < index ==> !HasRole(columns[j], role)
    decreases |columns| - i
  {
    if i == |columns| then -1
    else if HasRole(columns[i], role) then i
    else RoleIndexFrom(columns, role, i + 1)
  }

  /** The first index whose column has the role, or -1 when none has. */
  function RoleIndex(columns: seq<Column>, role: string): (index: int)
    ensures -1 <= index < |columns|
  {
    RoleIndexFrom(columns, role, 0)
  }

  /** The metadata lookup: the first column flagged with the role, or -1. */
  method GetColumnIndex(columns: seq<Column>, columnName: string) returns (index: int)
    ensures index == RoleIndex(columns, columnName)
    ensures index == -1 <==> forall j :: 0 <= j < |columns| ==> !HasRole(columns[j], columnName)
    ensures index != -1 ==> 0 <= index < |columns| && HasRole(columns[index], columnName)
    ensures index != -1 ==> forall j :: 0 <= j < index ==> !HasRole(columns[j], columnName)
  {
    index := -1;
    var i := 0;
    while i < |columns|
      invariant 0 <= i <= |columns|
      invariant forall j :: 0 <= j < i ==> !HasRole(columns[j], columnName)
      invariant index == -1
    {
      if columnName in columns[i].roles && columns[i].roles[columnName] == true {
        index := i;
        break;
      }
      i := i + 1;
    }
  }

  /** The source columns of the measure columns, in order. */
  function Sources(values: seq<ValueColumn>): (columns: seq<Column>)
    ensures |columns| == |values|
    ensures forall i :: 0 <= i < |values| ==> columns[i] == values[i].source
  {
    seq(|values|, i requires 0 <= i < |values| => values[i].source)
  }

  /** The measure lookup: the first measure whose source column is flagged with the role, or -1. */
  method GetMeasureIndex(values: seq<ValueColumn>, measureName: string) returns (index: int)
    ensures index == RoleIndex(Sources(values), measureName)
    ensures index == -1 <==> forall j :: 0 <= j < |values| ==> !HasRole(values[j].source, measureName)
    ensures index != -1 ==> 0 <= index < |values| && HasRole(values[index].source, measureName)
    ensures index != -1 ==> forall j :: 0 <= j < index ==> !HasRole(values[j].source, measureName)
  {
    index := -1;
    var i := 0;
    while i < |values|
      invariant 0 <= i <= |values|
      invariant forall j :: 0 <= j < i ==> !HasRole(values[j].source, measureName)
      invariant index == -1
    {
      if measureName in values[i].source.roles && values[i].source.roles[measureName] == true {
        index := i;
        break;
      }
      i := i + 1;
    }
  }

  /** The text of a cell of an image column (the host types these columns as text). */
  function TextAt(row: seq<CellValue>, index: int): string
    requires 0 <= index < |row| && row[index].Text?
  {
    row[index].text
  }

  /** Every row has one cell per column. */
  predicate RowsMatchColumns(dv: DataView)
  {
    forall r :: 0 <= r < |dv.rows| ==> |dv.rows[r]| == |dv.columns|
  }

  /** The image columns hold text and the value column holds numbers or nulls. */
  predicate CellsTyped(dv: DataView)
    requires RowsMatchColumns(dv)
  {
    var lq := RoleIndex(dv.columns, "ImageURL");
    var hq := RoleIndex(dv.columns, "ImageURLHQ");
    var value := RoleIndex(dv.columns, "Value");
    forall r :: 0 <= r < |dv.rows| ==>
      && (lq >= 0 ==> dv.rows[r][lq].Text?)
      && (hq >= 0 ==> dv.rows[r][hq].Text?)
      && (value >= 0 ==> !dv.rows[r][value].Text?)
  }

  /** What the adapter expects of the host: well-shaped rows and one identity per row. */
  predicate WellFormed(dv: DataView)
  {
    && RowsMatchColumns(dv)
    && CellsTyped(dv)
    && |dv.selectionIds| == |dv.rows|
  }

  /** The low-resolution URL of a row: its own column, else the high-resolution one, else empty. */
  function LowResURL(row: seq<CellValue>, lq: int, hq: int): (url: string)
    requires -1 <= lq < |row| && -1 <= hq < |row|
    requires lq >= 0 ==> row[lq].Text?
    requires hq >= 0 ==> row[hq].Text?
  {
    if lq > -1 then TextAt(row, lq) else if hq > -1 then TextAt(row, hq) else ""
  }

  /** The high-resolution URL of a row: its own column, else the low-resolution one, else empty. */
  function HighResURL(row: seq<CellValue>, lq: int, hq: int): (url: string)
    requires -1 <= lq < |row| && -1 <= hq < |row|
    requires lq >= 0 ==> row[lq].Text?
    requires hq >= 0 ==> row[hq].Text?
  {
    if hq > -1 then TextAt(row, hq) else if lq > -1 then TextAt(row, lq) else ""
  }

  /** The value of a row: null when no column has the value role or the cell is null. */
  function ValueOf(row: seq<CellValue>, valueIndex: int): (value: Option<real>)
    requires -1 <= valueIndex < |row|
    ensures valueIndex == -1 ==> value == None
    ensures valueIndex >= 0 && row[valueIndex].Number? ==> value == Some(row[valueIndex].number)
    ensures valueIndex >= 0 && row[valueIndex].Null? ==> value == None
  {
    if valueIndex > -1 then
      match row[valueIndex]
      case Number(v) => Some(v)
      case _ => None
    else None
  }

  /** The data point of row `r`. */
  function PointOf(dv: DataView, r: nat): DataPoint
    requires WellFormed(dv) && r < |dv.rows|
  {
    var row := dv.rows[r];
    var lq := RoleIndex(dv.columns, "ImageURL");
    var hq := RoleIndex(dv.columns, "ImageURLHQ");
    var value := RoleIndex(dv.columns, "Value");
    DataPoint(ValueOf(row, value), LowResURL(row, lq, hq), HighResURL(row, lq, hq), dv.selectionIds[r])
  }

  /** Neither image role is bound to any column. */
  predicate NoImageColumn(dv: DataView)
  {
    RoleIndex(dv.columns, "ImageURL") == -1 && RoleIndex(dv.columns, "ImageURLHQ") == -1
  }

  /** The view model of a data view. */
  function Transform(dataView: Option<DataView>): ViewModel
    requires dataView.Some? ==> WellFormed(dataView.value)
  {
    if dataView.None? || !dataView.value.hasCategorySource then ViewModel([], None)
    else
      var dv := dataView.value;
      if NoImageColumn(dv) then ViewModel([], None)
      else ViewModel(seq(|dv.rows|, r requires 0 <= r < |dv.rows| => PointOf(dv, r)), Some(dv.settings))
  }

  /** The adapter as the visual runs it: the early exits, then one point pushed per table row. */
  method VisualTransform(dataView: Option<DataView>) returns (viewModel: ViewModel)
    requires dataView.Some? ==> WellFormed(dataView.value)
    ensures viewModel == Transform(dataView)
  {
    viewModel := ViewModel([], None);
    if dataView.None? || !dataView.value.hasCategorySource {
      return;
    }
    var dv := dataView.value;
    var valueIndex := GetColumnIndex(dv.columns, "Value");
    var lqIndex := GetColumnIndex(dv.columns, "ImageURL");
    var hqIndex := GetColumnIndex(dv.columns, "ImageURLHQ");
    if lqIndex == -1 && hqIndex == -1 {
      return;
    }
    var points: seq<DataPoint> := [];
    for i := 0 to |dv.rows|
      invariant |points| == i
      invariant forall k :: 0 <= k < i ==> points[k] == PointOf(dv, k)
    {
      var row := dv.rows[i];
      var lqImage := if lqIndex > -1 then TextAt(row, lqIndex) else if hqIndex > -1 then TextAt(row, hqIndex) else "";
      var hqImage := if hqIndex > -1 then TextAt(row, hqIndex) else if lqIndex > -1 then TextAt(row, lqIndex) else "";
      var value := if valueIndex > -1 then (if row[valueIndex].Number? then Some(row[valueIndex].number) else None) else None;
      points := points + [DataPoint(value, lqImage, hqImage, dv.selectionIds[i])];
    }
    viewModel := ViewModel(points, Some(dv.settings));
  }

  /** The two fallbacks mirror each other: swapping the roles swaps the URLs. */
  lemma FallbackSymmetric(row: seq<CellValue>, lq: int, hq: int)
    requires -1 <= lq < |row| && -1 <= hq < |row|
    requires lq >= 0 ==> row[lq].Text?
    requires hq >= 0 ==> row[hq].Text?
    ensures LowResURL(row, lq, hq) == HighResURL(row, hq, lq)
  {
  }

  /** With only one image role bound, both URLs of a row come from that one column. */
  lemma SingleImageColumn(row: seq<CellValue>, lq: int, hq: int)
    requires -1 <= lq < |row| && -1 <= hq < |row|
    requires lq >= 0 ==> row[lq].Text?
    requires hq >= 0 ==> row[hq].Text?
    requires (lq == -1) != (hq == -1)
    ensures var bound := if lq >= 0 then lq else hq;
      LowResURL(row, lq, hq) == row[bound].text && HighResURL(row, lq, hq) == row[bound].text
  {
  }

  /** A URL is the empty-string fallback only when neither image role is bound. */
  lemma EmptyOnlyWhenUnbound(row: seq<CellValue>, lq: int, hq: int)
    requires -1 <= lq < |row| && -1 <= hq < |row|
    requires lq >= 0 ==> row[lq].Text?
    requires hq >= 0 ==> row[hq].Text?
    ensures lq == -1 && hq == -1 ==> LowResURL(row, lq, hq) == "" && HighResURL(row, lq, hq) == ""
    ensures lq >= 0 ==> LowResURL(row, lq, hq) == row[lq].text
    ensures hq >= 0 ==> HighResURL(row, lq, hq) == row[hq].text
  {
  }

  /** A data view without an image column yields no points; otherwise every row yields its point, in order. */
  lemma TransformPoints(dataView: Option<DataView>)
    requires dataView.Some? ==> WellFormed(dataView.value)
    ensures dataView.Some? && NoImageColumn(dataView.value) ==> Transform(dataView).dataPoints == []
    ensures dataView.Some? && dataView.value.hasCategorySource && !NoImageColumn(dataView.value) ==>
      var dv := dataView.value;
      && |Transform(dataView).dataPoints| == |dv.rows|
      && Transform(dataView).settings == Some(dv.settings)
      && forall r :: 0 <= r < |dv.rows| ==> Transform(dataView).dataPoints[r].selectionId == dv.selectionIds[r]
    ensures |Transform(dataView).dataPoints| > 0 ==> Transform(dataView).settings.Some?
  {
  }

  /** Every admitted point has a URL taken from a bound image column, never the empty fallback. */
  lemma AdmittedPointsHaveImageColumn(dataView: Option<DataView>, r: nat)
    requires dataView.Some? ==> WellFormed(dataView.value)
    requires r < |Transform(dataView).dataPoints|
    ensures var dv := dataView.value;
      var lq := RoleIndex(dv.columns, "ImageURL");
      var hq := RoleIndex(dv.columns, "ImageURLHQ");
      var p := Transform(dataView).dataPoints[r];
      && (lq >= 0 || hq >= 0)
      && p.imageURL == dv.rows[r][if lq >= 0 then lq else hq].text
      && p.imageURLHQ == dv.rows[r][if hq >= 0 then hq else lq].text
  {
  }
}
