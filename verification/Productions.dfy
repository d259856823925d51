/** Productions as the passes after the parse hold them: objects whose annotation is assigned
    and whose list of alternatives is grown in place. */
module Productions {
  import opened Strings
  import opened Tokens
  import opened Ast

  /** What a rule builds. */
  datatype Annotation = ArrayOf | ObjectOf(members: seq<string>)

  /** A production's fields, as a value. */
  datatype Line = Line(name: string, alts: seq<Sequence>, incremental: bool, sp: Option<Span>,
                       nodeKind: Option<string>, value: Option<Annotation>)

  class AltList {
    var items: seq<Sequence>

    constructor (items: seq<Sequence>)
      ensures this.items == items
    {
      this.items := items;
    }
  }

  class Production {
    const name: string
    const alts: AltList
    const incremental: bool
    const sp: Option<Span>
    const nodeKind: Option<string>
    var value: Option<Annotation>

    constructor (name: string, alts: AltList, incremental: bool, sp: Option<Span>,
                 nodeKind: Option<string>, value: Option<Annotation>)
      ensures this.name == name && this.alts == alts && this.incremental == incremental
      ensures this.sp == sp && this.nodeKind == nodeKind && this.value == value
    {
      this.name, this.alts, this.incremental := name, alts, incremental;
      this.sp, this.nodeKind, this.value := sp, nodeKind, value;
    }

    function View(): Line
      reads this, alts
    {
      Line(name, alts.items, incremental, sp, nodeKind, value)
    }
  }
}
