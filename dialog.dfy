/** Model of src/modal.rs: the edit dialog for an item. It keeps a draft of the
    three fields apart from the item it was given, validates the draft on save,
    and reports to its owner through two callbacks. */
module Dialog {
  import opened Items

  /** Stands for a Yew `Callback`: names the owner handler an `emit` reaches. */
  type CallbackId = nat

  /** `ModalProperties`: what the owner hands the dialog. */
  datatype ModalProperties = ModalProperties(item: Item, visible: bool, onClose: CallbackId, onSave: CallbackId)

  /** `ModalMsg`: what the dialog reacts to. */
  datatype ModalMsg =
    | HideModal
    | SetNome(nome: Bytes)
    | SetDescricao(descricao: Bytes)
    | SetRelatorio(relatorio: Bytes)
    | Save

  /** One `emit`, as recorded in the dialog's event log. */
  datatype Event =
    | CloseEmitted(callback: CallbackId, success: bool)
    | SaveEmitted(callback: CallbackId, saved: Item)

  /** The fields `update` and `change` assign, taken together as one value. */
  datatype ModalState = ModalState(
    item: Item,
    nome: Bytes,
    descricao: Bytes,
    relatorio: Bytes,
    visible: bool,
    error: Option<seq<ItemValidationErr>>)

  /** A close event always says `true`; a save event only ever carries fields
      that pass validation. */
  predicate EventOk(e: Event)
  {
    match e
    case CloseEmitted(_, success) => success
    case SaveEmitted(_, saved) => Accepts(ItemFormData(saved.nome, saved.descricao, saved.relatorio))
  }

  /** An error list as the validator produces it: non-empty and in field order. */
  predicate WellFormedErrors(errs: seq<ItemValidationErr>)
  {
    |errs| > 0 && StrictlyOrdered(errs)
  }

  const NewTitle: string := "Nova Tarefa"
  const UpdateTitle: string := "Atualizar Tarefa"

  class Modal {
    var item: Item
    var nome: Bytes
    var descricao: Bytes
    var relatorio: Bytes
    var visible: bool
    var onClose: CallbackId
    var onSave: CallbackId
    var error: Option<seq<ItemValidationErr>>
    /** Every `emit` on `on_close` or `on_save`, oldest first. */
    var events: seq<Event>

    ghost predicate Valid()
      reads this
    {
      && (error.Some? ==> WellFormedErrors(error.value))
      && forall i :: 0 <= i < |events| ==> EventOk(events[i])
    }

    function State(): ModalState
      reads this
    {
      ModalState(item, nome, descricao, relatorio, visible, error)
    }

    /** `create`: keeps the item and visibility, but starts the draft empty
        rather than from the item, with no error shown. */
    constructor Create(props: ModalProperties)
      ensures Valid()
      ensures State() == ModalState(props.item, [], [], [], props.visible, None)
      ensures onClose == props.onClose && onSave == props.onSave
      ensures events == []
    {
      item := props.item;
      nome := [];
      descricao := [];
      relatorio := [];
      visible := props.visible;
      onClose := props.onClose;
      onSave := props.onSave;
      error := None;
      events := [];
    }

    /** `update`: one message, handled to completion. */
    method Update(msg: ModalMsg)
      requires Valid()
      modifies this
      ensures Valid()
      ensures onClose == old(onClose) && onSave == old(onSave)
      ensures match msg
        case HideModal =>
          && State() == old(State()).(visible := false)
          && events == old(events) + [CloseEmitted(onClose, true)]
        case SetNome(s) =>
          State() == old(State()).(nome := s) && events == old(events)
        case SetDescricao(s) =>
          State() == old(State()).(descricao := s) && events == old(events)
        case SetRelatorio(s) =>
          State() == old(State()).(relatorio := s) && events == old(events)
        case Save =>
          var draft := ItemFormData(old(nome), old(descricao), old(relatorio));
          if Accepts(draft) then
            // a stale error from an earlier failed save stays in place
            && State() == old(State()).(visible := false)
            && events == old(events) + [SaveEmitted(onSave, Item(old(item).id, draft.nome, draft.descricao, draft.relatorio))]
          else
            && State() == old(State()).(error := Some(Failures(draft)))
            && events == old(events)
    {
      match msg {
        case HideModal =>
          visible := false;
          events := events + [CloseEmitted(onClose, true)];
        case SetNome(s) =>
          nome := s;
        case SetDescricao(s) =>
          descricao := s;
        case SetRelatorio(s) =>
          relatorio := s;
        case Save =>
          var formData := FromTuple((nome, descricao, relatorio));
          var valid := Validate(formData);
          match valid {
            case Ok(_) =>
              visible := false;
              events := events + [SaveEmitted(onSave, Item(item.id, formData.nome, formData.descricao, formData.relatorio))];
            case Err(e) =>
              FailuresCharacterised(formData);
              error := Some(e);
          }
      }
    }

    /** `change`: the owner's new props replace the item and visibility, re-seed
        the whole draft from the new item and clear the error. The callbacks
        given at creation are kept. */
    method Change(props: ModalProperties)
      requires Valid()
      modifies this
      ensures Valid()
      ensures State() == ModalState(props.item, props.item.nome, props.item.descricao, props.item.relatorio, props.visible, None)
      ensures onClose == old(onClose) && onSave == old(onSave)
      ensures events == old(events)
    {
      nome := props.item.nome;
      descricao := props.item.descricao;
      relatorio := props.item.relatorio;
      item := props.item;
      visible := props.visible;
      error := None;
    }

    /** The dialog's title: it reads only `item`, never the draft. */
    function Title(): (t: string)
      reads this`item
      ensures t == NewTitle <==> item.nome == []
      ensures t == UpdateTitle <==> item.nome != []
    {
      if |item.nome| == 0 then NewTitle else UpdateTitle
    }

    /** The error notice `view` shows: nothing while there is no error, and
        otherwise one line per stored failure. It reads only `error`. */
    function Notice(): (lines: seq<string>)
      reads this`error
      ensures error.None? ==> lines == []
      ensures error.Some? ==> |lines| == |error.value|
      ensures error.Some? ==> forall i :: 0 <= i < |lines| ==> lines[i] == ErrorMessage(error.value[i])
    {
      match error
      case None => []
      case Some(errs) => ErrorLines(errs)
    }
  }

  /** A dialog that holds an error always shows a notice: the invariant keeps
      every stored error list non-empty. */
  lemma NoticeShown(m: Modal)
    requires m.Valid() && m.error.Some?
    ensures 0 < |m.Notice()| <= |FieldOrder|
  {
    OrderedAtMostThree(m.error.value);
  }

  const NomeMessage: string := "Nome é requirido"
  const DescricaoMessage: string := "Descrição invalida"
  const RelatorioMessage: string := "Relatório invalido"

  /** Which failure a notice line reports, if it is one of the three messages. */
  function MessageFailure(m: string): Option<ItemValidationErr>
  {
    if m == NomeMessage then Some(InvalidNome)
    else if m == DescricaoMessage then Some(InvalidDescricao)
    else if m == RelatorioMessage then Some(InvalidRelatorio)
    else None
  }

  /** The text shown for each validation failure, total over the three tags;
      the text identifies the failure it was shown for. */
  function ErrorMessage(e: ItemValidationErr): (m: string)
    ensures MessageFailure(m) == Some(e)
  {
    match e
    case InvalidNome => NomeMessage
    case InvalidDescricao => DescricaoMessage
    case InvalidRelatorio => RelatorioMessage
  }

  /** Different failures are shown with different texts. */
  lemma ErrorMessageInjective(a: ItemValidationErr, b: ItemValidationErr)
    ensures ErrorMessage(a) == ErrorMessage(b) ==> a == b
  {
  }

  /** The notice lines for an error list: one message per failure, in order. */
  function ErrorLines(errs: seq<ItemValidationErr>): (lines: seq<string>)
    ensures |lines| == |errs|
    ensures forall i :: 0 <= i < |errs| ==> lines[i] == ErrorMessage(errs[i])
  {
    if errs == [] then [] else [ErrorMessage(errs[0])] + ErrorLines(errs[1..])
  }

  /** After a rejected save the notice names each broken rule exactly once, and
      nothing else. */
  lemma NoticeOfFailures(fd: ItemFormData)
    requires !Accepts(fd)
    ensures 0 < |ErrorLines(Failures(fd))| <= 3
    ensures forall e :: ErrorMessage(e) in ErrorLines(Failures(fd)) <==> Breaks(fd, e)
  {
    FailuresCharacterised(fd);
    var f := Failures(fd);
    var lines := ErrorLines(f);
    forall e ensures ErrorMessage(e) in lines <==> Breaks(fd, e) {
      if ErrorMessage(e) in lines {
        var k :| 0 <= k < |lines| && lines[k] == ErrorMessage(e);
        ErrorMessageInjective(f[k], e);
      }
      if Breaks(fd, e) {
        var k :| 0 <= k < |f| && f[k] == e;
        assert lines[k] == ErrorMessage(e);
      }
    }
  }
}

/** Clients of the dialog that drive it the way its owner and user do, using
    only the contracts above. */
module DialogClient {
  import opened Items
  import opened Dialog

  /** A blank nome and a one-byte descricao are both reported, in field order;
      the dialog stays open and nothing is emitted. */
  method RejectedSave(id: nat)
  {
    var m := new Modal.Create(ModalProperties(Item(id, [], [], []), true, 1, 2));
    m.Update(SetDescricao([120]));
    m.Update(SetRelatorio([111, 107]));
    assert m.nome == [] && m.descricao == [120] && m.relatorio == [111, 107];
    m.Update(Save);
    var draft := ItemFormData([], [120], [111, 107]);
    FailuresByField(draft);
    assert Breaks(draft, InvalidNome) && Breaks(draft, InvalidDescricao) && !Breaks(draft, InvalidRelatorio);
    assert [InvalidNome] + [InvalidDescricao] + [] == [InvalidNome, InvalidDescricao];
    assert m.error == Some([InvalidNome, InvalidDescricao]);
    assert m.visible && m.events == [];
    NoticeOfFailures(draft);
    assert m.Notice() == [NomeMessage, DescricaoMessage];
    assert m.Title() == NewTitle;
  }

  /** Each keystroke replaces the nome draft; the error and the title stay. */
  method Typing(m: Modal)
    requires m.Valid()
    modifies m
  {
    var error, title := m.error, m.Title();
    m.Update(SetNome([97]));
    m.Update(SetNome([97, 98]));
    m.Update(SetNome([97, 98, 99]));
    assert m.nome == [97, 98, 99] && m.error == error && m.Title() == title;
  }

  /** A valid draft is saved under the item's id and closes the dialog; an error
      left from an earlier rejected save is still there. */
  method AcceptedSave(m: Modal)
    requires m.Valid() && m.error.Some?
    modifies m
  {
    var task: Bytes := [84, 97, 115, 107];   // "Task"
    var desc: Bytes := [68, 101, 115, 99];   // "Desc"
    var id, error, events := m.item.id, m.error, m.events;
    m.Update(SetNome(task));
    m.Update(SetDescricao(desc));
    m.Update(SetRelatorio([114]));
    m.Update(Save);
    assert !m.visible && m.error == error;
    assert m.events == events + [SaveEmitted(m.onSave, Item(id, task, desc, [114]))];
  }

  /** Closing hides the dialog and tells the owner; new props then discard the
      draft and the error but keep the callbacks given at creation. */
  method CloseThenReseed(m: Modal, next: Item)
    requires m.Valid() && next.nome != []
    modifies m
  {
    var nome, onClose, onSave := m.nome, m.onClose, m.onSave;
    m.Update(HideModal);
    assert !m.visible && m.nome == nome && m.events[|m.events| - 1] == CloseEmitted(onClose, true);
    m.Change(ModalProperties(next, true, onClose + 1, onSave + 1));
    assert m.nome == next.nome && m.error == None && m.visible;
    assert m.onClose == onClose && m.onSave == onSave;
    assert m.Title() == UpdateTitle;
  }

  /** Saving a draft that breaks a rule leaves the dialog showing one to three
      notice lines, and a failure's message among them iff the draft breaks
      that failure's rule. */
  method RejectedSaveNotice(m: Modal)
    requires m.Valid() && !Accepts(ItemFormData(m.nome, m.descricao, m.relatorio))
    modifies m
    ensures 0 < |m.Notice()| <= 3
    ensures forall e :: ErrorMessage(e) in m.Notice() <==> Breaks(ItemFormData(old(m.nome), old(m.descricao), old(m.relatorio)), e)
  {
    var draft := ItemFormData(m.nome, m.descricao, m.relatorio);
    m.Update(Save);
    NoticeOfFailures(draft);
    assert m.Notice() == ErrorLines(Failures(draft));
  }
}
