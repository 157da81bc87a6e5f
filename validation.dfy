/** Schema validation of the ingested dataset
    (`DataValidation.validate_all_columns`): which expected columns the
    dataset's header lacks, which it has beyond the schema, the pass/fail
    status and the text written to the status file. Reading the CSV and
    writing the file are left to the caller; the header and the schema's
    keys come in as sequences and the file's text goes out as a string. */
module Validation {
  import opened Seqs

  datatype ValidationReport = ValidationReport(
    missing: seq<string>,
    extra: seq<string>,
    status: bool,
    statusFile: string)

  /** The schema's columns the header lacks, in schema order. */
  function MissingColumns(expected: seq<string>, dataset: seq<string>): (r: seq<string>)
    ensures forall c :: c in r <==> c in expected && c !in dataset
    ensures forall c :: c !in dataset ==> multiset(r)[c] == multiset(expected)[c]
    ensures Subseq(r, expected)
  {
    Filter(expected, c => c !in dataset)
  }

  /** The header's columns the schema does not name, in header order. */
  function ExtraColumns(expected: seq<string>, dataset: seq<string>): (r: seq<string>)
    ensures forall c :: c in r <==> c in dataset && c !in expected
    ensures forall c :: c !in expected ==> multiset(r)[c] == multiset(dataset)[c]
    ensures Subseq(r, dataset)
  {
    Filter(dataset, c => c !in expected)
  }

  /** `f"Validation status: {status}"` with Python's spelling of a bool. */
  function StatusText(status: bool): (text: string)
    ensures text == "Validation status: True" || text == "Validation status: False"
    ensures text == "Validation status: True" <==> status
  {
    "Validation status: " + (if status then "True" else "False")
  }

  /** The whole stage: the status fails only for missing columns, and the
      status file's text always records the returned status. */
  function ValidateAllColumns(expected: seq<string>, dataset: seq<string>): (r: ValidationReport)
    ensures forall c :: c in r.missing <==> c in expected && c !in dataset
    ensures forall c :: c in r.extra <==> c in dataset && c !in expected
    ensures r.status <==> r.missing == []
    ensures r.status <==> forall c :: c in expected ==> c in dataset
    ensures r.statusFile == StatusText(r.status)
  {
    var missing := MissingColumns(expected, dataset);
    var extra := ExtraColumns(expected, dataset);
    var status := missing == [];
    assert missing != [] ==> missing[0] in missing;
    ValidationReport(missing, extra, status, StatusText(status))
  }

  /** The status file's text tells the two outcomes apart. */
  lemma StatusTextInjective(a: bool, b: bool)
    ensures StatusText(a) == StatusText(b) ==> a == b
  {
    if a != b {
      assert StatusText(a)[19] != StatusText(b)[19];
    }
  }

  /** The missing list, hence the status and the status text, depends only on
      which schema columns the header has: extra columns, their number and
      their position never change it. */
  lemma {:induction false} OnlySchemaColumnsMatter(expected: seq<string>, d1: seq<string>, d2: seq<string>)
    requires forall c :: c in expected ==> (c in d1 <==> c in d2)
    ensures MissingColumns(expected, d1) == MissingColumns(expected, d2)
    ensures ValidateAllColumns(expected, d1).status == ValidateAllColumns(expected, d2).status
    ensures ValidateAllColumns(expected, d1).statusFile == ValidateAllColumns(expected, d2).statusFile
  {
    if expected != [] {
      OnlySchemaColumnsMatter(expected[1..], d1, d2);
      assert MissingColumns(expected, d1)
          == (if expected[0] !in d1 then [expected[0]] else []) + MissingColumns(expected[1..], d1);
      assert MissingColumns(expected, d2)
          == (if expected[0] !in d2 then [expected[0]] else []) + MissingColumns(expected[1..], d2);
    }
  }

  /** Appending columns the schema does not name leaves the outcome as it was. */
  lemma ExtraColumnsNeverChangeTheResult(expected: seq<string>, dataset: seq<string>, more: seq<string>)
    requires forall c :: c in more ==> c !in expected
    ensures ValidateAllColumns(expected, dataset + more).missing == ValidateAllColumns(expected, dataset).missing
    ensures ValidateAllColumns(expected, dataset + more).status == ValidateAllColumns(expected, dataset).status
  {
    OnlySchemaColumnsMatter(expected, dataset + more, dataset);
  }

  /** A header that is a rearrangement of the schema's keys has nothing
      missing, nothing extra, and passes. */
  lemma PermutedHeaderPasses(expected: seq<string>, dataset: seq<string>)
    requires multiset(dataset) == multiset(expected)
    ensures ValidateAllColumns(expected, dataset).missing == []
    ensures ValidateAllColumns(expected, dataset).extra == []
    ensures ValidateAllColumns(expected, dataset).status
    ensures ValidateAllColumns(expected, dataset).statusFile == "Validation status: True"
  {
    var r := ValidateAllColumns(expected, dataset);
    forall c | c in expected ensures c in dataset {
      assert c in multiset(expected);
    }
    forall c | c in dataset ensures c in expected {
      assert c in multiset(dataset);
    }
  }

  /** The missing and extra lists never share a column. */
  lemma MissingAndExtraDisjoint(expected: seq<string>, dataset: seq<string>)
    ensures forall c :: c in ValidateAllColumns(expected, dataset).missing ==> c !in ValidateAllColumns(expected, dataset).extra
  {
  }
}
