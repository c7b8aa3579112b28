/**
 * Customer ("cliente") records as the component sees them: JSON objects whose
 * keys map to primitive values. A record carries a server-assigned `id` and the
 * seven form fields `nome`, `cpf_cnpj`, `endereco_cep`, `endereco_rua`,
 * `endereco_numero`, `email` and `telefone`.
 */
module Records {
  import opened Strings

  datatype Option<+T> = None | Some(value: T)

  /** A JSON primitive; `typeof v === 'string'` is `v.Str?`. */
  datatype Value = Str(s: string) | Num(n: int) | Bool(b: bool) | Null

  /** A JSON object: its own enumerable keys and their values. */
  type Record = map<string, Value>

  /** `record.id`; `None` stands for `undefined` (no such key). */
  function IdOf(r: Record): Option<Value> {
    if "id" in r then Some(r["id"]) else None
  }

  /** The names of the seven form items. */
  const FormFields: set<string> :=
    {"nome", "cpf_cnpj", "endereco_cep", "endereco_rua", "endereco_numero", "email", "telefone"}

  /** What the form hands to its submit handler once its rules pass: exactly the
      seven fields, each present (not null), a string one non-empty, and `email` a
      string. A field seeded from a record may hold a non-string, such as a number,
      and still pass its `required` rule. */
  predicate FormComplete(values: Record) {
    && values.Keys == FormFields
    && (forall k :: k in values ==> values[k] != Null)
    && (forall k :: k in values && values[k].Str? ==> values[k].s != [])
    && values["email"].Str?
  }

  /** One entry of the edit-click mapping: strings are trimmed, anything else is kept. */
  function TrimValue(v: Value): (w: Value)
    ensures w.Str? <==> v.Str?
    ensures !v.Str? ==> w == v
    ensures v.Str? ==> IsTrimmed(w.s) && |w.s| <= |v.s| && w.s == Trim(v.s)
  {
    match v
    case Str(s) => Str(Trim(s))
    case _ => v
  }

  /** Every string value of the record is already trimmed. */
  predicate IsTrimmedRecord(r: Record) {
    forall k :: k in r && r[k].Str? ==> IsTrimmed(r[k].s)
  }

  /** The record seeded into the edit form: the same keys, every string value
      trimmed, every other value (a numeric `id`, say) unchanged. */
  function TrimRecord(r: Record): (t: Record)
    ensures t.Keys == r.Keys
    ensures IsTrimmedRecord(t)
    ensures forall k :: k in r && !r[k].Str? ==> t[k] == r[k]
    ensures forall k :: k in r && r[k].Str? ==> t[k].Str? && t[k].s == Trim(r[k].s)
  {
    map k | k in r :: TrimValue(r[k])
  }

  /** Trimming a record a second time changes nothing. */
  lemma {:induction false} TrimRecordIdempotent(r: Record)
    ensures TrimRecord(TrimRecord(r)) == TrimRecord(r)
  {
    var t := TrimRecord(r);
    forall k | k in t
      ensures TrimRecord(t)[k] == t[k]
    {
      if t[k].Str? {
        TrimIdempotent(r[k].s);
      }
    }
  }

  /** Trimming leaves a record alone exactly when its strings are already trimmed. */
  lemma {:induction false} TrimRecordFixedPoint(r: Record)
    ensures TrimRecord(r) == r <==> IsTrimmedRecord(r)
  {
    if IsTrimmedRecord(r) {
      forall k | k in r
        ensures TrimRecord(r)[k] == r[k]
      {
        if r[k].Str? {
          TrimFixedPoint(r[k].s);
        }
      }
    }
  }
}
