/** Model of src/item.rs: the item record, the form data the dialog submits, the
    field validator and the process-wide id counter. */
module Items {

  /** One byte of a UTF-8 encoded Rust `String`. */
  newtype Byte = x: int | 0 <= x < 256

  /** A Rust `String` seen as its UTF-8 bytes: `String::len` is the length of
      this sequence, not the number of characters. */
  type Bytes = seq<Byte>

  datatype Option<T> = None | Some(value: T)

  datatype Result<T, E> = Ok(value: T) | Err(error: E)

  /** The persisted record; `id` is a Rust `usize`. */
  datatype Item = Item(id: nat, nome: Bytes, descricao: Bytes, relatorio: Bytes)

  /** The three raw strings submitted by the dialog. */
  datatype ItemFormData = ItemFormData(nome: Bytes, descricao: Bytes, relatorio: Bytes)

  /** Only `Validate` builds one of these, and only when all three rules hold. */
  datatype ValidatedItem = ValidatedItem(nome: Bytes, descricao: Bytes, relatorio: Bytes)

  datatype ItemValidationErr = InvalidNome | InvalidDescricao | InvalidRelatorio

  /** A `relatorio` must be shorter than this many bytes. */
  const RelatorioLimit: nat := 244

  // ---------------------------------------------------------------------------
  // The rules, stated declaratively
  // ---------------------------------------------------------------------------

  predicate NomeOk(nome: Bytes) { |nome| > 1 }

  predicate DescricaoOk(descricao: Bytes) { |descricao| > 1 }

  predicate RelatorioOk(relatorio: Bytes) { |relatorio| < RelatorioLimit }

  /** The form passes all three rules. */
  predicate Accepts(fd: ItemFormData)
  {
    NomeOk(fd.nome) && DescricaoOk(fd.descricao) && RelatorioOk(fd.relatorio)
  }

  /** `fd` breaks the rule whose failure `e` reports. */
  predicate Breaks(fd: ItemFormData, e: ItemValidationErr)
  {
    match e
    case InvalidNome => !NomeOk(fd.nome)
    case InvalidDescricao => !DescricaoOk(fd.descricao)
    case InvalidRelatorio => !RelatorioOk(fd.relatorio)
  }

  /** Position of the field `e` reports on, in the form's order. */
  function Rank(e: ItemValidationErr): nat
  {
    match e
    case InvalidNome => 0
    case InvalidDescricao => 1
    case InvalidRelatorio => 2
  }

  /** The fields in the order the validator checks them. */
  const FieldOrder: seq<ItemValidationErr> := [InvalidNome, InvalidDescricao, InvalidRelatorio]

  /** Every tag comes strictly after the ones before it in field order. */
  predicate StrictlyOrdered(errs: seq<ItemValidationErr>)
  {
    forall i, j :: 0 <= i < j < |errs| ==> Rank(errs[i]) < Rank(errs[j])
  }

  /** A list in strict field order holds at most one tag per field. */
  lemma {:induction false} OrderedAtMostThree(errs: seq<ItemValidationErr>)
    requires StrictlyOrdered(errs)
    ensures |errs| <= |FieldOrder|
    ensures |errs| > 0 ==> Rank(errs[|errs| - 1]) >= |errs| - 1
  {
    if |errs| > 1 {
      var init := errs[..|errs| - 1];
      assert forall i :: 0 <= i < |init| ==> init[i] == errs[i];
      OrderedAtMostThree(init);
      assert Rank(errs[|errs| - 2]) < Rank(errs[|errs| - 1]);
    }
  }

  /** The tags of `tags` whose rule `fd` breaks, kept in the order of `tags`. */
  function BrokenRules(fd: ItemFormData, tags: seq<ItemValidationErr>): seq<ItemValidationErr>
  {
    if tags == [] then []
    else (if Breaks(fd, tags[0]) then [tags[0]] else []) + BrokenRules(fd, tags[1..])
  }

  /** The failure list a rejected form is reported with. */
  function Failures(fd: ItemFormData): seq<ItemValidationErr>
  {
    BrokenRules(fd, FieldOrder)
  }

  /** The failure list, one field at a time in field order. */
  lemma FailuresByField(fd: ItemFormData)
    ensures Failures(fd) == (if Breaks(fd, InvalidNome) then [InvalidNome] else [])
                          + (if Breaks(fd, InvalidDescricao) then [InvalidDescricao] else [])
                          + (if Breaks(fd, InvalidRelatorio) then [InvalidRelatorio] else [])
  {
    var two, one: seq<ItemValidationErr> := [InvalidDescricao, InvalidRelatorio], [InvalidRelatorio];
    assert FieldOrder[1..] == two && two[1..] == one && one[1..] == [];
    assert BrokenRules(fd, one) == (if Breaks(fd, InvalidRelatorio) then [InvalidRelatorio] else []) + BrokenRules(fd, []);
    assert BrokenRules(fd, two) == (if Breaks(fd, InvalidDescricao) then [InvalidDescricao] else []) + BrokenRules(fd, one);
  }

  lemma {:induction false} BrokenRulesMembers(fd: ItemFormData, tags: seq<ItemValidationErr>)
    ensures forall e :: e in BrokenRules(fd, tags) <==> e in tags && Breaks(fd, e)
  {
    if tags != [] {
      BrokenRulesMembers(fd, tags[1..]);
      assert tags == [tags[0]] + tags[1..];
    }
  }

  lemma {:induction false} BrokenRulesOrdered(fd: ItemFormData, tags: seq<ItemValidationErr>)
    requires StrictlyOrdered(tags)
    ensures StrictlyOrdered(BrokenRules(fd, tags))
  {
    if tags != [] {
      var rest := BrokenRules(fd, tags[1..]);
      BrokenRulesOrdered(fd, tags[1..]);
      BrokenRulesMembers(fd, tags[1..]);
      forall e | e in rest ensures Rank(tags[0]) < Rank(e) {
        var k :| 0 <= k < |tags[1..]| && tags[1..][k] == e;
        assert tags[k + 1] == e;
      }
      var head := if Breaks(fd, tags[0]) then [tags[0]] else [];
      var r := head + rest;
      forall i, j | 0 <= i < j < |r| ensures Rank(r[i]) < Rank(r[j]) {
        if head == [] {
          assert r[i] == rest[i] && r[j] == rest[j];
        } else if i == 0 {
          assert r[j] == rest[j - 1] && r[j] in rest;
        } else {
          assert r[i] == rest[i - 1] && r[j] == rest[j - 1];
        }
      }
    }
  }

  /** What a rejected form is told: exactly the broken rules, each once, in field
      order, and the list is empty exactly when the form is accepted. */
  lemma FailuresCharacterised(fd: ItemFormData)
    ensures forall e :: e in Failures(fd) <==> Breaks(fd, e)
    ensures StrictlyOrdered(Failures(fd))
    ensures forall i, j :: 0 <= i < j < |Failures(fd)| ==> Failures(fd)[i] != Failures(fd)[j]
    ensures Failures(fd) == [] <==> Accepts(fd)
    ensures |Failures(fd)| <= |FieldOrder|
  {
    var f := Failures(fd);
    assert forall e :: e in f <==> Breaks(fd, e) by {
      BrokenRulesMembers(fd, FieldOrder);
    }
    assert StrictlyOrdered(f) by {
      BrokenRulesOrdered(fd, FieldOrder);
    }
    forall i, j | 0 <= i < j < |f| ensures f[i] != f[j] {
      assert Rank(f[i]) < Rank(f[j]);
    }
    assert (f == [] <==> Accepts(fd)) && |f| <= |FieldOrder| by {
      FailuresByField(fd);
    }
  }

  // ---------------------------------------------------------------------------
  // The validator, as the source runs it
  // ---------------------------------------------------------------------------

  /** `validate_nome`: hands the string back, or the nome failure. */
  function ValidateNome(nome: Bytes): (r: Result<Bytes, ItemValidationErr>)
    ensures r.Ok? <==> NomeOk(nome)
    ensures r.Ok? ==> r.value == nome
    ensures r.Err? ==> r.error == InvalidNome
  {
    if |nome| > 1 then Ok(nome) else Err(InvalidNome)
  }

  /** `validate_descricao`: hands the string back, or the descricao failure. */
  function ValidateDescricao(descricao: Bytes): (r: Result<Bytes, ItemValidationErr>)
    ensures r.Ok? <==> DescricaoOk(descricao)
    ensures r.Ok? ==> r.value == descricao
    ensures r.Err? ==> r.error == InvalidDescricao
  {
    if |descricao| > 1 then Ok(descricao) else Err(InvalidDescricao)
  }

  /** `validate_relatorio`: hands the string back, or the relatorio failure. */
  function ValidateRelatorio(relatorio: Bytes): (r: Result<Bytes, ItemValidationErr>)
    ensures r.Ok? <==> RelatorioOk(relatorio)
    ensures r.Ok? ==> r.value == relatorio
    ensures r.Err? ==> r.error == InvalidRelatorio
  {
    if |relatorio| < RelatorioLimit then Ok(relatorio) else Err(InvalidRelatorio)
  }

  /** `ItemFormData::validate`: checks every field, pushing each failure onto
      `errors` as it goes, and succeeds only if nothing was pushed. */
  method Validate(formData: ItemFormData) returns (r: Result<ValidatedItem, seq<ItemValidationErr>>)
    ensures r.Ok? <==> Accepts(formData)
    ensures r.Ok? ==> r.value == ValidatedItem(formData.nome, formData.descricao, formData.relatorio)
    ensures r.Err? ==> r.error == Failures(formData)
  {
    var errors: seq<ItemValidationErr> := [];

    var nome: Bytes;
    match ValidateNome(formData.nome) {
      case Ok(v) => nome := v;
      case Err(e) => errors := errors + [e]; nome := [];
    }

    var descricao: Bytes;
    match ValidateDescricao(formData.descricao) {
      case Ok(v) => descricao := v;
      case Err(e) => errors := errors + [e]; descricao := [];
    }

    var relatorio: Bytes;
    match ValidateRelatorio(formData.relatorio) {
      case Ok(v) => relatorio := v;
      case Err(e) => errors := errors + [e]; relatorio := [];
    }

    FailuresByField(formData);
    if errors != [] {
      FailuresCharacterised(formData);
      return Err(errors);
    }
    return Ok(ValidatedItem(nome, descricao, relatorio));
  }

  /** Validating the same form twice gives the same answer. */
  method ValidateTwice(formData: ItemFormData)
    returns (first: Result<ValidatedItem, seq<ItemValidationErr>>, second: Result<ValidatedItem, seq<ItemValidationErr>>)
    ensures first == second
  {
    first := Validate(formData);
    second := Validate(formData);
  }

  /** The length rules sit exactly at 1/2 bytes for nome and descricao and at
      243/244 bytes for relatorio. */
  lemma Boundaries(fd: ItemFormData)
    ensures |fd.nome| == 1 ==> Breaks(fd, InvalidNome) && InvalidNome in Failures(fd)
    ensures |fd.nome| == 2 ==> InvalidNome !in Failures(fd)
    ensures |fd.descricao| == 1 ==> Breaks(fd, InvalidDescricao) && InvalidDescricao in Failures(fd)
    ensures |fd.descricao| == 2 ==> InvalidDescricao !in Failures(fd)
    ensures |fd.relatorio| == 243 ==> InvalidRelatorio !in Failures(fd)
    ensures |fd.relatorio| == 244 ==> Breaks(fd, InvalidRelatorio) && InvalidRelatorio in Failures(fd)
  {
    FailuresCharacterised(fd);
  }

  /** An example, not a property: since `Bytes` is the UTF-8 encoding, a nome
      of the one character "é" (two bytes) passes, and a one-byte nome fails. */
  lemma NomeCountsBytes()
    ensures NomeOk([0xC3, 0xA9])
    ensures !NomeOk([0x61])
  {
  }

  // ---------------------------------------------------------------------------
  // From<(String, String, String)>
  // ---------------------------------------------------------------------------

  /** Tuple components 0, 1 and 2 become nome, descricao and relatorio. */
  function FromTuple(t: (Bytes, Bytes, Bytes)): (fd: ItemFormData)
    ensures fd.nome == t.0 && fd.descricao == t.1 && fd.relatorio == t.2
  {
    ItemFormData(t.0, t.1, t.2)
  }

  /** The three fields of a form, as a tuple in declaration order. */
  function AsTuple(fd: ItemFormData): (Bytes, Bytes, Bytes)
  {
    (fd.nome, fd.descricao, fd.relatorio)
  }

  /** The conversion loses nothing: it is a bijection between tuples and forms. */
  lemma FromTupleRoundTrip(t: (Bytes, Bytes, Bytes), fd: ItemFormData)
    ensures AsTuple(FromTuple(t)) == t
    ensures FromTuple(AsTuple(fd)) == fd
  {
  }

  // ---------------------------------------------------------------------------
  // Item::generate_id
  // ---------------------------------------------------------------------------

  /** The static `COUNTER` behind `generate_id`, one object for the process. */
  class IdCounter {
    var counter: nat
    /** Every id handed out so far, oldest first. */
    ghost var issued: seq<nat>

    ghost predicate Valid()
      reads this
    {
      && counter == |issued| + 1
      && forall i :: 0 <= i < |issued| ==> issued[i] == i + 1
    }

    /** `AtomicUsize::new(1)`. */
    constructor ()
      ensures Valid() && issued == [] && counter == 1
    {
      counter := 1;
      issued := [];
    }

    /** `fetch_add(1)`: returns the counter and advances it. */
    method GenerateId() returns (id: nat)
      requires Valid()
      modifies this
      ensures Valid()
      ensures issued == old(issued) + [id]
      ensures id == old(counter) && counter == id + 1
      ensures old(issued) == [] ==> id == 1
      ensures id >= 1 && forall k :: 0 <= k < |old(issued)| ==> old(issued)[k] < id
    {
      id := counter;
      counter := counter + 1;
      issued := issued + [id];
    }
  }

  /** Ids handed out are all non-zero and strictly increasing, so never repeated. */
  lemma IssuedIdsDistinct(c: IdCounter)
    requires c.Valid()
    ensures forall i :: 0 <= i < |c.issued| ==> c.issued[i] > 0
    ensures forall i, j :: 0 <= i < j < |c.issued| ==> c.issued[i] < c.issued[j]
  {
  }
}
