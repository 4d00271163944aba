/** `PolicyHandler.getNode`: what a policy handler reads of the GraphQL
    resolver info, and the result a handler produces. */
module PolicyNode {
  import opened Wrappers
  import opened Domain

  datatype PathInfo = PathInfo(key: string, typename: string)

  /** The resolver info (argument 3 of the GraphQL execution context). */
  datatype ResolveInfo<V> = ResolveInfo(variableValues: V, path: PathInfo)

  /** The execution context a guard hands to handlers: the authenticated user
      on the request (argument 2) and the resolver info. */
  datatype GqlContext<V> = GqlContext(user: Option<Id>, info: ResolveInfo<V>)

  datatype Node<V> = Node(variableValues: V, key: string, isMutation: bool, isQuery: bool)

  /** A handler either settles with a boolean or fails (a rejected promise). */
  datatype HandlerResult = Returned(allowed: bool) | Threw

  function GetNode<V>(context: GqlContext<V>): (node: Node<V>)
    ensures node.variableValues == context.info.variableValues
    ensures node.key == context.info.path.key
    ensures node.isMutation <==> context.info.path.typename == "Mutation"
    ensures node.isQuery <==> context.info.path.typename == "Query"
    ensures !(node.isMutation && node.isQuery)
  {
    var info := context.info;
    Node(info.variableValues, info.path.key, info.path.typename == "Mutation", info.path.typename == "Query")
  }
}
