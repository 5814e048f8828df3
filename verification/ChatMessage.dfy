/** A chat message as the parsers build it and as the client receives it. */
module ChatMessage {

  datatype Call = Call(name: string, arguments: string, id: string)

  datatype Message = Message(reasoning: string, content: string, calls: seq<Call>)
}
