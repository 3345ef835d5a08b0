/**
 The column schema of the clothes table: the garment categories counted at
 intake, the eleven fields of one row, and the column names that the empty
 fallback table is created with.
 */
module Schema {
  import opened Wrappers

  /** The garment categories counted on the intake form, in form order. */
  datatype Category = Shirts | Pants | TShirts | Sarees | Dresses | DryCleanShirts

  const Categories: seq<Category> := [Shirts, Pants, TShirts, Sarees, Dresses, DryCleanShirts]

  /** Every category is counted on the form. */
  lemma CategoriesComplete()
    ensures forall c: Category :: c in Categories
  {
    forall c: Category ensures c in Categories {
      match c
      case Shirts => case Pants => case TShirts => case Sarees => case Dresses => case DryCleanShirts =>
    }
  }

  /** One column of the table. */
  datatype Field = Name | Date | Time | Count(category: Category) | TotalClothes | PaymentStatus

  /** The fields in column order. */
  const Fields: seq<Field> :=
    [Name, Date, Time,
     Count(Shirts), Count(Pants), Count(TShirts), Count(Sarees), Count(Dresses), Count(DryCleanShirts),
     TotalClothes, PaymentStatus]

  /** The column names the table is created with when no stored table exists. */
  const Columns: seq<string> :=
    ["Name", "Date", "Time", "Shirts", "Pants", "T-shirts",
     "Sarees", "Dresses", "Dry_clean_shirts", "Total_Clothes", "Payment_Status"]

  /** The column header of a field. */
  function ColumnName(f: Field): string {
    match f
    case Name => "Name"
    case Date => "Date"
    case Time => "Time"
    case Count(Shirts) => "Shirts"
    case Count(Pants) => "Pants"
    case Count(TShirts) => "T-shirts"
    case Count(Sarees) => "Sarees"
    case Count(Dresses) => "Dresses"
    case Count(DryCleanShirts) => "Dry_clean_shirts"
    case TotalClothes => "Total_Clothes"
    case PaymentStatus => "Payment_Status"
  }

  /** The field whose column carries the given header, if any. */
  function FieldNamed(header: string): (r: Option<Field>)
    ensures r.Some? ==> ColumnName(r.value) == header
    ensures r.None? ==> header !in Columns
  {
    if header == "Name" then Some(Name)
    else if header == "Date" then Some(Date)
    else if header == "Time" then Some(Time)
    else if header == "Shirts" then Some(Count(Shirts))
    else if header == "Pants" then Some(Count(Pants))
    else if header == "T-shirts" then Some(Count(TShirts))
    else if header == "Sarees" then Some(Count(Sarees))
    else if header == "Dresses" then Some(Count(Dresses))
    else if header == "Dry_clean_shirts" then Some(Count(DryCleanShirts))
    else if header == "Total_Clothes" then Some(TotalClothes)
    else if header == "Payment_Status" then Some(PaymentStatus)
    else None
  }

  /** The fallback columns are exactly the headers of the fields, in order,
      every field has a column, and no header is used twice. */
  lemma ColumnsMatchFields()
    ensures |Columns| == |Fields|
    ensures forall i :: 0 <= i < |Fields| ==> ColumnName(Fields[i]) == Columns[i]
    ensures forall f: Field :: f in Fields
    ensures forall i, j :: 0 <= i < j < |Columns| ==> Columns[i] != Columns[j]
  {
    forall f: Field ensures f in Fields {
      match f
      case Count(c) => assert c == Shirts || c == Pants || c == TShirts || c == Sarees || c == Dresses || c == DryCleanShirts;
      case _ =>
    }
  }

  /** Looking a field up by its own header gives the field back, so headers
      identify fields. */
  lemma FieldNamedRoundTrip(f: Field)
    ensures FieldNamed(ColumnName(f)) == Some(f)
  {
  }
}
