/** The quote editor of the "Cotizaciones" screen: a form that starts empty,
    is filled from a listed quote by "Editar", is sent as an update or a
    creation by "Crear"/"Actualizar", and is reset by a successful save or by
    "Cancelar"; deleting asks for confirmation first. */
module Cotizaciones {
  import opened Wrappers
  import opened Js

  /** The keys of the form; `id` belongs to the record only. */
  datatype FormField =
    | ClienteId | NombreCliente | Producto | Color | FechaExpiracion | PrecioUnitario | Cantidad | Estado

  /** The state `form`. */
  datatype Form = Form(
    clienteId: JsValue, nombreCliente: JsValue, producto: JsValue, color: JsValue,
    fechaExpiracion: JsValue, precioUnitario: JsValue, cantidad: JsValue, estado: JsValue)

  /** A quote as the list endpoint returns it; a field the server leaves out is `Undefined`. */
  datatype Cotizacion = Cotizacion(
    id: JsValue,
    clienteId: JsValue, nombreCliente: JsValue, producto: JsValue, color: JsValue,
    fechaExpiracion: JsValue, precioUnitario: JsValue, cantidad: JsValue, estado: JsValue)

  /** The state a new quote starts from. */
  const DefaultEstado := Str("emitida")

  const EmptyForm := Form(Str(""), Str(""), Str(""), Str(""), Str(""), Str(""), Str(""), DefaultEstado)

  function FieldOf(f: Form, k: FormField): JsValue {
    match k
    case ClienteId => f.clienteId
    case NombreCliente => f.nombreCliente
    case Producto => f.producto
    case Color => f.color
    case FechaExpiracion => f.fechaExpiracion
    case PrecioUnitario => f.precioUnitario
    case Cantidad => f.cantidad
    case Estado => f.estado
  }

  function RecordField(c: Cotizacion, k: FormField): JsValue {
    match k
    case ClienteId => c.clienteId
    case NombreCliente => c.nombreCliente
    case Producto => c.producto
    case Color => c.color
    case FechaExpiracion => c.fechaExpiracion
    case PrecioUnitario => c.precioUnitario
    case Cantidad => c.cantidad
    case Estado => c.estado
  }

  /** `{...form, [k]: v}`, as the inputs' `onChange` handlers do. */
  function WithField(f: Form, k: FormField, v: JsValue): (r: Form)
    ensures FieldOf(r, k) == v
    ensures forall k' :: k' != k ==> FieldOf(r, k') == FieldOf(f, k')
  {
    match k
    case ClienteId => f.(clienteId := v)
    case NombreCliente => f.(nombreCliente := v)
    case Producto => f.(producto := v)
    case Color => f.(color := v)
    case FechaExpiracion => f.(fechaExpiracion := v)
    case PrecioUnitario => f.(precioUnitario := v)
    case Cantidad => f.(cantidad := v)
    case Estado => f.(estado := v)
  }

  /** The default `edit` falls back to for a falsy field of the record. */
  function Default(k: FormField): JsValue {
    if k == Estado then DefaultEstado else Str("")
  }

  /** The form `edit(c)` writes: each field is `c`'s when truthy, otherwise
      `''`, except that `estado` falls back to `'emitida'`. */
  function FormFromRecord(c: Cotizacion): (f: Form)
    ensures forall k :: Truthy(RecordField(c, k)) ==> FieldOf(f, k) == RecordField(c, k)
    ensures forall k :: !Truthy(RecordField(c, k)) ==> FieldOf(f, k) == Default(k)
    ensures Truthy(f.estado)
  {
    Form(
      Or(c.clienteId, Str("")), Or(c.nombreCliente, Str("")), Or(c.producto, Str("")),
      Or(c.color, Str("")), Or(c.fechaExpiracion, Str("")), Or(c.precioUnitario, Str("")),
      Or(c.cantidad, Str("")), Or(c.estado, DefaultEstado))
  }

  /** The record the server would hold after the form was saved under `id`. */
  function RecordOf(id: JsValue, f: Form): (c: Cotizacion)
    ensures c.id == id && forall k :: RecordField(c, k) == FieldOf(f, k)
  {
    Cotizacion(id, f.clienteId, f.nombreCliente, f.producto, f.color,
               f.fechaExpiracion, f.precioUnitario, f.cantidad, f.estado)
  }

  /** Two forms that agree on every key are equal. */
  lemma FormExtensionality(f: Form, g: Form)
    requires forall k :: FieldOf(f, k) == FieldOf(g, k)
    ensures f == g
  {
    assert FieldOf(f, ClienteId) == FieldOf(g, ClienteId);
    assert FieldOf(f, NombreCliente) == FieldOf(g, NombreCliente);
    assert FieldOf(f, Producto) == FieldOf(g, Producto);
    assert FieldOf(f, Color) == FieldOf(g, Color);
    assert FieldOf(f, FechaExpiracion) == FieldOf(g, FechaExpiracion);
    assert FieldOf(f, PrecioUnitario) == FieldOf(g, PrecioUnitario);
    assert FieldOf(f, Cantidad) == FieldOf(g, Cantidad);
    assert FieldOf(f, Estado) == FieldOf(g, Estado);
  }

  /** Every field of the empty form equals the fallback `edit` uses for it. */
  lemma EmptyFormIsDefaults()
    ensures forall k :: FieldOf(EmptyForm, k) == Default(k)
  {
    forall k ensures FieldOf(EmptyForm, k) == Default(k) {
      match k
      case Estado =>
      case _ =>
    }
  }

  /** Filling the form from a record that has no truthy field gives the empty form. */
  lemma EditBlankRecord(c: Cotizacion)
    requires forall k :: !Truthy(RecordField(c, k))
    ensures FormFromRecord(c) == EmptyForm
  {
    var f := FormFromRecord(c);
    EmptyFormIsDefaults();
    FormExtensionality(f, EmptyForm);
  }

  /** Editing a quote that was stored from a form filled by `edit` fills the
      same form again. */
  lemma EditIsIdempotent(c: Cotizacion)
    ensures FormFromRecord(RecordOf(c.id, FormFromRecord(c))) == FormFromRecord(c)
  {
    var f := FormFromRecord(c);
    var g := FormFromRecord(RecordOf(c.id, f));
    forall k ensures FieldOf(g, k) == FieldOf(f, k) {
      if !Truthy(RecordField(c, k)) {
        assert FieldOf(f, k) == Default(k);
      }
    }
    FormExtensionality(g, f);
  }

  /** The request `save` issues. */
  datatype SaveRequest = Put(id: JsValue, body: Form) | Post(body: Form)

  /** `remove(id)`: a DELETE for `id` is issued only when the user confirms. */
  function DeleteRequest(id: JsValue, confirmed: bool): (r: Option<JsValue>)
    ensures r.Some? <==> confirmed
    ensures r.Some? ==> r.value == id
  {
    if confirmed then Some(id) else None
  }

  /** The state `form` and `editingId` of the screen. */
  class CotizacionEditor {
    var form: Form
    var editingId: JsValue

    constructor ()
      ensures form == EmptyForm && editingId == Null
    {
      form := EmptyForm;
      editingId := Null;
    }

    /** An input's `onChange`. */
    method SetField(k: FormField, v: JsValue)
      modifies this
      ensures form == WithField(old(form), k, v) && editingId == old(editingId)
    {
      form := WithField(form, k, v);
    }

    /** "Editar" on quote `c`. */
    method Edit(c: Cotizacion)
      modifies this
      ensures editingId == c.id && form == FormFromRecord(c)
    {
      editingId := c.id;
      form := FormFromRecord(c);
    }

    /** `save` up to its `await`: a PUT to the quote being edited when
        `editingId` is truthy, a POST otherwise, each carrying the form as it
        is at the click. Nothing changes until the request settles. */
    method SaveStart() returns (req: SaveRequest)
      ensures Truthy(editingId) ==> req == Put(editingId, form)
      ensures !Truthy(editingId) ==> req == Post(form)
    {
      if Truthy(editingId) {
        req := Put(editingId, form);
      } else {
        req := Post(form);
      }
    }

    /** The rest of `save` once the request settles; `succeeded` is whether it
        resolved. Only then are the form and `editingId` reset, whatever they
        hold by then, an `edit` clicked while the request was pending
        included. */
    method SaveResolve(succeeded: bool)
      modifies this
      ensures succeeded ==> form == EmptyForm && editingId == Null
      ensures !succeeded ==> form == old(form) && editingId == old(editingId)
    {
      if succeeded {
        form := EmptyForm;
        editingId := Null;
      }
    }

    /** "Cancelar". */
    method Cancel()
      modifies this
      ensures form == EmptyForm && editingId == Null
    {
      form := EmptyForm;
      editingId := Null;
    }
  }

  /** "Editar" clicked on quote `c` while the POST of a new quote is pending
      is undone when the POST resolves: the screen is left with the empty
      form and no quote being edited. */
  method EditWhileSaving(c: Cotizacion) returns (req: SaveRequest, form: Form, id: JsValue)
    ensures req == Post(EmptyForm)
    ensures form == EmptyForm && id == Null
  {
    var editor := new CotizacionEditor();
    req := editor.SaveStart();
    editor.Edit(c);
    editor.SaveResolve(true);
    form, id := editor.form, editor.editingId;
  }
}
