/** The order editor of the "Pedidos" screen: a list of detail lines edited
    by append, update-at-index and remove-at-index, the order total as the
    sum of the line subtotals, and the create-order action that sends the
    order and clears the editor. */
module Pedidos {
  import opened Js

  /** One detail line `{producto_id, cantidad, subtotal}`. */
  datatype Detalle = Detalle(productoId: JsValue, cantidad: JsValue, subtotal: JsValue)

  /** The keys the screen's inputs write with `updateDetalle`. */
  datatype Field = ProductoId | Cantidad | Subtotal

  /** The line `addDetalle` appends: `{producto_id: '', cantidad: 1, subtotal: 0}`. */
  const NewDetalle := Detalle(Str(""), Num(1.0), Num(0.0))

  function Get(d: Detalle, k: Field): JsValue {
    match k
    case ProductoId => d.productoId
    case Cantidad => d.cantidad
    case Subtotal => d.subtotal
  }

  /** `{...d, [k]: v}` */
  function Set(d: Detalle, k: Field, v: JsValue): (r: Detalle)
    ensures Get(r, k) == v
    ensures forall k' :: k' != k ==> Get(r, k') == Get(d, k')
  {
    match k
    case ProductoId => d.(productoId := v)
    case Cantidad => d.(cantidad := v)
    case Subtotal => d.(subtotal := v)
  }

  /** `addDetalle`: one fresh line at the end, the others untouched. */
  function AddDetalle(ds: seq<Detalle>): (r: seq<Detalle>)
    ensures |r| == |ds| + 1
    ensures r[..|ds|] == ds && r[|ds|] == NewDetalle
  {
    ds + [NewDetalle]
  }

  /** `updateDetalle(i, key, val)`: `d.map((it, idx) => idx === i ? {...it, [key]: val} : it)`. */
  function UpdateDetalle(ds: seq<Detalle>, i: int, k: Field, v: JsValue): (r: seq<Detalle>)
    ensures |r| == |ds|
    ensures forall j :: 0 <= j < |ds| && j != i ==> r[j] == ds[j]
    ensures 0 <= i < |ds| ==> Get(r[i], k) == v
    ensures 0 <= i < |ds| ==> forall k' :: k' != k ==> Get(r[i], k') == Get(ds[i], k')
  {
    seq(|ds|, j requires 0 <= j < |ds| => if j == i then Set(ds[j], k, v) else ds[j])
  }

  /** The "Quitar" button: `ds.filter((_, idx) => idx !== i)`. */
  function RemoveDetalle(ds: seq<Detalle>, i: int): (r: seq<Detalle>)
    ensures 0 <= i < |ds| ==> r == ds[..i] + ds[i + 1..]
    ensures !(0 <= i < |ds|) ==> r == ds
  {
    if ds == [] then []
    else
      var rest := RemoveDetalle(ds[1..], i - 1);
      if i == 0 then
        assert rest == ds[1..];
        rest
      else
        assert 0 < i <= |ds| ==> ds[..i] == [ds[0]] + ds[1..][..i - 1];
        assert 0 < i < |ds| ==> ds[i + 1..] == ds[1..][i..];
        [ds[0]] + rest
  }

  /** `ds.reduce((s, d) => s + (Number(d.subtotal) || 0), 0)`, folding from the left. */
  function Total(ds: seq<Detalle>): (t: real)
    ensures ds == [] ==> t == 0.0
    ensures |ds| == 1 ==> t == NumberOrZero(ds[0].subtotal)
  {
    if ds == [] then 0.0 else Total(ds[..|ds| - 1]) + NumberOrZero(ds[|ds| - 1].subtotal)
  }

  /** The total of a concatenation is the sum of the totals. */
  lemma {:induction false} TotalAppend(a: seq<Detalle>, b: seq<Detalle>)
    ensures Total(a + b) == Total(a) + Total(b)
  {
    if b != [] {
      assert (a + b)[..|a + b| - 1] == a + b[..|b| - 1];
      TotalAppend(a, b[..|b| - 1]);
    } else {
      assert a + b == a;
    }
  }

  /** A line whose subtotal is non-numeric contributes nothing to the total. */
  lemma NonNumericCountsZero(ds: seq<Detalle>, d: Detalle)
    requires ToNumber(d.subtotal).None?
    ensures Total(ds + [d]) == Total(ds)
  {
    assert (ds + [d])[..|ds|] == ds;
  }

  /** Appending a fresh line leaves the total as it was. */
  lemma TotalAfterAdd(ds: seq<Detalle>)
    ensures Total(AddDetalle(ds)) == Total(ds)
  {
    assert AddDetalle(ds)[..|ds|] == ds;
  }

  /** The total splits around any line `i`. */
  lemma TotalSplit(ds: seq<Detalle>, i: nat)
    requires i < |ds|
    ensures Total(ds) == Total(ds[..i]) + NumberOrZero(ds[i].subtotal) + Total(ds[i + 1..])
  {
    assert ds == ds[..i + 1] + ds[i + 1..];
    TotalAppend(ds[..i + 1], ds[i + 1..]);
    assert ds[..i + 1][..i] == ds[..i];
  }

  /** Removing line `i` takes exactly its subtotal off the total. */
  lemma TotalAfterRemove(ds: seq<Detalle>, i: nat)
    requires i < |ds|
    ensures Total(RemoveDetalle(ds, i)) == Total(ds) - NumberOrZero(ds[i].subtotal)
  {
    TotalSplit(ds, i);
    TotalAppend(ds[..i], ds[i + 1..]);
  }

  /** Setting the subtotal of line `i` changes the total by the difference in value. */
  lemma TotalAfterUpdate(ds: seq<Detalle>, i: nat, v: JsValue)
    requires i < |ds|
    ensures Total(UpdateDetalle(ds, i, Subtotal, v))
            == Total(ds) - NumberOrZero(ds[i].subtotal) + NumberOrZero(v)
  {
    var r := UpdateDetalle(ds, i, Subtotal, v);
    assert r[..i] == ds[..i] && r[i + 1..] == ds[i + 1..];
    TotalOutsideLine(ds, r, i);
  }

  /** Two line lists that differ at most in line `i` have totals that differ
      only by that line's value. */
  lemma TotalOutsideLine(ds: seq<Detalle>, r: seq<Detalle>, i: nat)
    requires i < |ds| == |r|
    requires r[..i] == ds[..i] && r[i + 1..] == ds[i + 1..]
    ensures Total(r) - NumberOrZero(r[i].subtotal) == Total(ds) - NumberOrZero(ds[i].subtotal)
  {
    TotalSplit(ds, i);
    TotalSplit(r, i);
  }

  /** The body `savePedido` posts. */
  datatype PedidoPayload = PedidoPayload(
    clienteId: string, estado: string, prioridad: string, total: real, detalles: seq<Detalle>)

  /** The state of the order editor: `clienteId` and `detalles`. */
  class PedidoEditor {
    var clienteId: string
    var detalles: seq<Detalle>

    constructor ()
      ensures clienteId == "" && detalles == []
    {
      clienteId := "";
      detalles := [];
    }

    method SetClienteId(v: string)
      modifies this
      ensures clienteId == v && detalles == old(detalles)
    {
      clienteId := v;
    }

    /** The "Agregar detalle" button. */
    method Agregar()
      modifies this
      ensures detalles == AddDetalle(old(detalles)) && clienteId == old(clienteId)
    {
      detalles := AddDetalle(detalles);
    }

    /** An input of line `i`. */
    method Editar(i: int, k: Field, v: JsValue)
      modifies this
      ensures detalles == UpdateDetalle(old(detalles), i, k, v) && clienteId == old(clienteId)
    {
      detalles := UpdateDetalle(detalles, i, k, v);
    }

    /** The "Quitar" button of line `i`. */
    method Quitar(i: int)
      modifies this
      ensures detalles == RemoveDetalle(old(detalles), i) && clienteId == old(clienteId)
    {
      detalles := RemoveDetalle(detalles, i);
    }

    /** `savePedido` up to its `await`: the payload is built from the state
        at the click. Nothing changes until the POST settles. */
    method SaveStart() returns (p: PedidoPayload)
      ensures p.clienteId == clienteId && p.detalles == detalles
      ensures p.estado == "pendiente" && p.prioridad == "normal"
      ensures p.total == Total(detalles)
    {
      var total := Total(detalles);
      p := PedidoPayload(clienteId, "pendiente", "normal", total, detalles);
    }

    /** The rest of `savePedido` once the POST settles; `posted` is whether it
        resolved. A resolved POST clears the editor as it is by then, so lines
        added or typed while the request was pending are dropped too. A
        rejected one changes nothing. */
    method SaveResolve(posted: bool)
      modifies this
      ensures posted ==> clienteId == "" && detalles == []
      ensures !posted ==> clienteId == old(clienteId) && detalles == old(detalles)
    {
      if posted {
        clienteId := "";
        detalles := [];
      }
    }
  }

  /** A line added while the POST of a one-line order is pending is not part
      of the order that was sent, and is gone once the POST resolves. */
  method LineAddedWhileSaving() returns (p: PedidoPayload, after: seq<Detalle>)
    ensures |p.detalles| == 1 && after == []
  {
    var editor := new PedidoEditor();
    editor.Agregar();
    p := editor.SaveStart();
    editor.Agregar();
    assert |editor.detalles| == 2;
    editor.SaveResolve(true);
    after := editor.detalles;
  }
}
