/** What both mappers share: the outcome of mapping one input line, the header rule
    and the comma split of a trip record. */
module RideRecord {
  import opened JavaStrings

  /** The column names the header row starts with. */
  const HeaderSignature: string := "ride_id,rideable_type"

  /** The exception `map` throws instead of returning (`ArrayIndexOutOfBoundsException`
      when a column is read past the end of the split line). */
  datatype MapError = IndexOutOfBounds(index: nat, length: nat)

  /** Why a line produced no key without an error; `UnparsableTimestamp` is the case the
      busiest-hour mapper logs to standard error. */
  datatype SkipReason = HeaderRow | NotTopStation | UnparsableTimestamp(text: string)

  /** One call of `map`: the keys written to the context, each with count 1, in write
      order; or a silent return; or a thrown exception. */
  datatype MapOutcome = Emit(keys: seq<string>) | Skip(reason: SkipReason) | Fail(error: MapError)

  /** The keys a line contributes. */
  function Emitted(o: MapOutcome): seq<string> {
    if o.Emit? then o.keys else []
  }

  /** The header is recognised only at byte offset 0 and only by containing the signature. */
  predicate IsHeader(offset: int, line: string) {
    offset == 0 && Contains(line, HeaderSignature)
  }

  /** `line.split(",", -1)`. */
  function Fields(line: string): seq<string> {
    Split(line, ',')
  }

  /** A line has one more field than it has commas, and joining the fields with commas
      gives the line back: trailing empty fields are kept. */
  lemma FieldsOfLine(line: string)
    ensures |Fields(line)| == multiset(line)[','] + 1
    ensures Join(Fields(line), ',') == line
  {
    JoinSplit(line, ',');
  }

  /** A record written as delimiter-free columns splits back into exactly those columns:
      there is no quoting, so a comma is always a separator. */
  lemma FieldsOfColumns(columns: seq<string>)
    requires |columns| >= 1
    requires forall i :: 0 <= i < |columns| ==> ',' !in columns[i]
    ensures Fields(Join(columns, ',')) == columns
  {
    SplitJoin(columns, ',');
  }
}
