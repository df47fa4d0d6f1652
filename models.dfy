/**
 * The task record of the dashboard and the dictionary that
 * `Task.model_dump(mode='json')` turns it into.
 */
module Models {

  /** A task: server-assigned id, title, completion flag, creation time (ISO text). */
  datatype Task = Task(id: int, title: string, completed: bool, createdAt: string)

  /** The JSON-mode values a dumped task holds. */
  datatype Value = Int(i: int) | Str(s: string) | Bool(b: bool)

  /** `model_dump(mode='json')`: one entry per field, under the field's own name. */
  function Dump(t: Task): (d: map<string, Value>)
    ensures d.Keys == {"id", "title", "completed", "created_at"}
    ensures FromDump(d) == Some(t)
  {
    map["id" := Int(t.id), "title" := Str(t.title),
        "completed" := Bool(t.completed), "created_at" := Str(t.createdAt)]
  }

  datatype Option<T> = None | Some(value: T)

  /** Reads a task back from its dump; `None` when a field is missing or of the wrong kind. */
  function FromDump(d: map<string, Value>): Option<Task>
  {
    if "id" in d && d["id"].Int? && "title" in d && d["title"].Str?
       && "completed" in d && d["completed"].Bool? && "created_at" in d && d["created_at"].Str?
    then Some(Task(d["id"].i, d["title"].s, d["completed"].b, d["created_at"].s))
    else None
  }

  /** The dump carries the whole task: reading it back gives the task again (Dump's own ensures, as a lemma). */
  lemma DumpRoundTrip(t: Task)
    ensures FromDump(Dump(t)) == Some(t)
  {
    var d := Dump(t);
    assert d["id"] == Int(t.id) && d["title"] == Str(t.title);
    assert d["completed"] == Bool(t.completed) && d["created_at"] == Str(t.createdAt);
  }

  /** Different tasks have different dumps. */
  lemma DumpInjective(t1: Task, t2: Task)
    requires Dump(t1) == Dump(t2)
    ensures t1 == t2
  {
    DumpRoundTrip(t1);
    DumpRoundTrip(t2);
  }

  function DigitChar(d: nat): char
    requires d < 10
  {
    "0123456789"[d]
  }

  /** Decimal digits of a natural number, most significant first, no leading zeros. */
  function NatToDecimal(n: nat): (s: string)
    ensures |s| >= 1
    ensures forall k :: 0 <= k < |s| ==> '0' <= s[k] <= '9'
    ensures n < 10 ==> |s| == 1
    ensures n >= 10 ==> s[0] != '0'
  {
    if n < 10 then [DigitChar(n)] else NatToDecimal(n / 10) + [DigitChar(n % 10)]
  }

  /** Decimal digits as `str()` prints a natural number: at least one digit, no leading zero. */
  ghost predicate CanonicalDecimal(s: string)
  {
    && |s| >= 1
    && (forall k :: 0 <= k < |s| ==> '0' <= s[k] <= '9')
    && (|s| > 1 ==> s[0] != '0')
  }

  /** The number a string of decimal digits spells, most significant digit first. */
  function DecimalValue(s: string): int
  {
    if s == [] then 0 else 10 * DecimalValue(s[..|s| - 1]) + (s[|s| - 1] as int - '0' as int)
  }

  lemma DigitCharValue(d: nat)
    requires d < 10
    ensures DigitChar(d) as int - '0' as int == d
  {
  }

  /** The digits `NatToDecimal` prints spell `n`. */
  lemma {:induction false} NatToDecimalValue(n: nat)
    ensures DecimalValue(NatToDecimal(n)) == n
  {
    var s := NatToDecimal(n);
    if n < 10 {
      DigitCharValue(n);
      assert s[..|s| - 1] == [];
    } else {
      NatToDecimalValue(n / 10);
      DigitCharValue(n % 10);
      assert s[..|s| - 1] == NatToDecimal(n / 10);
    }
  }

  /** What Python's `str()` (and so an f-string) prints for a value. */
  function Render(v: Value): (r: string)
    ensures v.Str? ==> r == v.s
    ensures v.Bool? ==> r == (if v.b then "True" else "False")
    ensures v.Int? && v.i >= 0 ==> CanonicalDecimal(r) && DecimalValue(r) == v.i
    ensures v.Int? && v.i < 0 ==> |r| >= 2 && r[0] == '-' && CanonicalDecimal(r[1..]) && DecimalValue(r[1..]) == -v.i
  {
    match v
    case Str(s) => s
    case Bool(b) => if b then "True" else "False"
    case Int(i) =>
      NatToDecimalValue(if i < 0 then -i else i);
      if i < 0 then "-" + NatToDecimal(-i) else NatToDecimal(i)
  }
}
