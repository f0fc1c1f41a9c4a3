/** The parts of the rendered Swagger UI page that the glue code reads, abstracted
    from the DOM into plain values.  Each CSS query of the original code becomes a
    field holding what that query would have returned, in document order. */
module Dom {

  /** Optional values stand for a `querySelector` that may find nothing, and for
      the nullable references the code keeps. */
  datatype Option<T> = None | Some(value: T) {
    function GetOr(default: T): T {
      match this
      case Some(v) => v
      case None => default
    }
  }

  /** One `.response` element of an operation block.
      `statusTexts` holds the text content of the four status elements the code
      looks for, in its priority order (`.response-col_status`,
      `.response__status`, `.response-status-code`, `h4`); `None` where the
      element is absent.  `code` is the inner text of the first `pre`, `code` or
      `.microlight` element inside the node, `None` where there is none. */
  datatype ResponseNode = ResponseNode(statusTexts: seq<Option<string>>, code: Option<string>)

  /** An `.opblock` element: the text of its `.opblock-summary-method` and
      `.opblock-summary-path` elements (`None` when absent), its response nodes in
      document order, and the inner texts of the `pre`/`code` elements that the
      fallback query returns, in the order the query returns them. */
  datatype OpBlock = OpBlock(
    methodText: Option<string>,
    pathText: Option<string>,
    responses: seq<ResponseNode>,
    codeBlocks: seq<string>)

  /** A DOM node a mutation record points at: an identity and its class list,
      `None` for nodes without one (text nodes). */
  datatype Node = Node(id: nat, classList: Option<set<string>>)
}
