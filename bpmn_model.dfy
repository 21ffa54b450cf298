/**
 * The part of the diagram library's object graph that the property panel
 * touches: typed value objects made by the library's factory, the
 * heterogeneous extension container of a business object, and the selected
 * element's business object itself, whose fields the modeling API updates.
 */
module BpmnModel {

  /** A value that may be absent (`undefined` in the panel code). */
  datatype Option<+T> = None | Some(value: T)

  /** A `<prefix>:Property` value object: its type tag, its name and its value. */
  datatype Prop = Prop(tag: string, name: string, value: string)

  /**
   * One entry of an extension container, discriminated by its type tag.
   * A `Group` carries a `values` sequence of properties (a `<prefix>:Properties`
   * entry); an `Opaque` entry is any other extension (a listener, form data, ...)
   * that has no `values` sequence and is only ever passed through.
   */
  datatype Ext =
    | Group(tag: string, values: seq<Prop>)
    | Opaque(tag: string, id: string)

  /**
   * The business object of the selected diagram element. Only
   * `extensionElements` is written by the panel; `id` and `name` stand for the
   * rest of the element's state, which the panel never changes. An absent
   * container (`extensionElements` or its `values` undefined) is `None`.
   */
  class BusinessObject {
    const id: string
    var name: string
    var extensionElements: Option<seq<Ext>>

    constructor (id: string, name: string, extensionElements: Option<seq<Ext>>)
      ensures this.id == id && this.name == name
      ensures this.extensionElements == extensionElements
    {
      this.id := id;
      this.name := name;
      this.extensionElements := extensionElements;
    }
  }
}
