/**
 One row of the clothes table: who handed clothes in, when, how many of each
 garment category, the derived total and the payment status.
 */
module Records {
  import opened Wrappers
  import opened Schema

  /** A row. Counts are non-negative: the intake form only accepts whole
      numbers from 0 up. */
  datatype Record = Record(
    name: string,
    date: string,
    time: string,
    shirts: nat,
    pants: nat,
    tshirts: nat,
    sarees: nat,
    dresses: nat,
    dryCleanShirts: nat,
    totalClothes: nat,
    paymentStatus: string)

  /** The value stored in one cell. */
  datatype Value = Text(text: string) | Number(number: nat)

  /** The status every new entry starts with. */
  const Pending: string := "Pending"

  /** The count a row holds for one category. */
  function CountOf(r: Record, c: Category): nat {
    match c
    case Shirts => r.shirts
    case Pants => r.pants
    case TShirts => r.tshirts
    case Sarees => r.sarees
    case Dresses => r.dresses
    case DryCleanShirts => r.dryCleanShirts
  }

  /** The cell of a row under one column. */
  function Get(r: Record, f: Field): Value {
    match f
    case Name => Text(r.name)
    case Date => Text(r.date)
    case Time => Text(r.time)
    case Count(c) => Number(CountOf(r, c))
    case TotalClothes => Number(r.totalClothes)
    case PaymentStatus => Text(r.paymentStatus)
  }

  /** The sum of a row's counts over the given categories. */
  function SumOver(r: Record, cs: seq<Category>): nat
    decreases |cs|
  {
    if cs == [] then 0 else CountOf(r, cs[0]) + SumOver(r, cs[1..])
  }

  /** The sum of a row's counts over every category. */
  function CategorySum(r: Record): nat {
    SumOver(r, Categories)
  }

  /** The derived-field invariant: the total is the sum of the category counts. */
  predicate Consistent(r: Record) {
    r.totalClothes == CategorySum(r)
  }

  /** Summing over every category is adding up the six count columns. */
  lemma CategorySumUnfolds(r: Record)
    ensures CategorySum(r) == r.shirts + r.pants + r.tshirts + r.sarees + r.dresses + r.dryCleanShirts
  {
  }

  /** Every count summed over is at most the sum. */
  lemma {:induction false} SumOverBoundsEach(r: Record, cs: seq<Category>, c: Category)
    requires c in cs
    ensures CountOf(r, c) <= SumOver(r, cs)
    decreases |cs|
  {
    if cs[0] != c {
      SumOverBoundsEach(r, cs[1..], c);
    }
  }

  /** The sum is zero exactly when every count summed over is zero. */
  lemma {:induction false} SumOverZeroIff(r: Record, cs: seq<Category>)
    ensures SumOver(r, cs) == 0 <==> forall c :: c in cs ==> CountOf(r, c) == 0
    decreases |cs|
  {
    if cs != [] {
      SumOverZeroIff(r, cs[1..]);
      assert forall c :: c in cs <==> c == cs[0] || c in cs[1..];
    }
  }

  /** A consistent row's total bounds each of its counts, and is zero
      exactly when no clothes of any category were handed in. */
  lemma ConsistentTotalBounds(r: Record)
    requires Consistent(r)
    ensures forall c: Category :: CountOf(r, c) <= r.totalClothes
    ensures r.totalClothes == 0 <==> forall c: Category :: CountOf(r, c) == 0
  {
  }

  /** The row built when the intake form is submitted: the counts as entered,
      the total derived from them and the status "Pending". */
  function NewEntry(name: string, date: string, time: string,
                    shirts: nat, pants: nat, tshirts: nat,
                    sarees: nat, dresses: nat, dryCleanShirts: nat): (r: Record)
    ensures Consistent(r)
    ensures r.paymentStatus == Pending
    ensures r.name == name && r.date == date && r.time == time
    ensures CountOf(r, Shirts) == shirts && CountOf(r, Pants) == pants
    ensures CountOf(r, TShirts) == tshirts && CountOf(r, Sarees) == sarees
    ensures CountOf(r, Dresses) == dresses && CountOf(r, DryCleanShirts) == dryCleanShirts
    ensures forall c: Category :: CountOf(r, c) <= r.totalClothes
  {
    var total := shirts + pants + tshirts + sarees + dresses + dryCleanShirts;
    var r := Record(name, date, time, shirts, pants, tshirts, sarees, dresses, dryCleanShirts,
                    total, Pending);
    CategorySumUnfolds(r);
    ConsistentTotalBounds(r);
    r
  }

  /** The row with only its payment status replaced. */
  function WithStatus(r: Record, status: string): (r': Record)
    ensures Get(r', PaymentStatus) == Text(status)
    ensures forall f: Field :: f != PaymentStatus ==> Get(r', f) == Get(r, f)
    ensures Consistent(r') <==> Consistent(r)
  {
    r.(paymentStatus := status)
  }

  /** Two rows that agree in every column are the same row. */
  lemma RowExtensionality(a: Record, b: Record)
    requires forall f: Field :: Get(a, f) == Get(b, f)
    ensures a == b
  {
    assert Get(a, Name) == Get(b, Name) && Get(a, Date) == Get(b, Date) && Get(a, Time) == Get(b, Time);
    assert Get(a, Count(Shirts)) == Get(b, Count(Shirts)) && Get(a, Count(Pants)) == Get(b, Count(Pants));
    assert Get(a, Count(TShirts)) == Get(b, Count(TShirts)) && Get(a, Count(Sarees)) == Get(b, Count(Sarees));
    assert Get(a, Count(Dresses)) == Get(b, Count(Dresses));
    assert Get(a, Count(DryCleanShirts)) == Get(b, Count(DryCleanShirts));
    assert Get(a, TotalClothes) == Get(b, TotalClothes) && Get(a, PaymentStatus) == Get(b, PaymentStatus);
  }

  /** A row as the column-to-cell dictionary it is inserted from, in column order. */
  function ToRow(r: Record): (row: seq<(string, Value)>)
    ensures |row| == |Columns|
    ensures forall i :: 0 <= i < |row| ==> row[i].0 == Columns[i]
    ensures forall i :: 0 <= i < |row| ==> row[i].1 == Get(r, Fields[i])
  {
    ColumnsMatchFields();
    seq(|Fields|, i requires 0 <= i < |Fields| => (ColumnName(Fields[i]), Get(r, Fields[i])))
  }

  /** Reads a row back from its column-to-cell dictionary; None when a
      header does not name the field of its position or a cell has the
      wrong kind. */
  function FromRow(row: seq<(string, Value)>): Option<Record> {
    if |row| != |Fields| || exists i :: 0 <= i < |row| && FieldNamed(row[i].0) != Some(Fields[i]) then None
    else
      match (row[0].1, row[1].1, row[2].1, row[3].1, row[4].1, row[5].1,
             row[6].1, row[7].1, row[8].1, row[9].1, row[10].1)
      case (Text(n), Text(d), Text(t), Number(s), Number(p), Number(ts),
            Number(sa), Number(dr), Number(dc), Number(total), Text(st)) =>
        Some(Record(n, d, t, s, p, ts, sa, dr, dc, total, st))
      case _ => None
  }

  /** The dictionary of a row loses nothing: reading it back gives the row. */
  lemma RowRoundTrip(r: Record)
    ensures FromRow(ToRow(r)) == Some(r)
  {
    var row := ToRow(r);
    forall i | 0 <= i < |row| ensures FieldNamed(row[i].0) == Some(Fields[i]) {
      ColumnsMatchFields();
      FieldNamedRoundTrip(Fields[i]);
    }
  }

  /** A dictionary that reads back as a row is exactly that row's dictionary. */
  lemma RowRoundTripBack(row: seq<(string, Value)>, r: Record)
    requires FromRow(row) == Some(r)
    ensures ToRow(r) == row
  {
  }
}
