// Wire types of the model API that the server cores share.
module Proto {
  import opened Texts

  datatype Role = System | User | Assistant | Tool

  datatype Turn = Turn(role: Role, content: Text, toolCallId: Option<Text>)

  datatype InferenceInput =
    | TextInput(text: Text)
    | TurnsInput(turns: seq<Turn>)
    | PcmInput
    | MelInput

  function UserTurn(content: Text): Turn { Turn(User, content, None) }

  function AssistantTurn(content: Text): Turn { Turn(Assistant, content, None) }

  /** The parts of a request that the stub slot and the connection handler look at; tools by name. */
  datatype InferenceRequest =
    InferenceRequest(input: InferenceInput, session: Option<Text>, tools: seq<Text>, stream: bool, progress: bool)

  datatype ToolCall = ToolCall(id: Text, name: Text, argumentsJson: Text)

  datatype InferenceResponse =
    InferenceResponse(text: Text, sessionId: Option<Text>, rawText: Option<Text>, toolCalls: seq<ToolCall>)

  /** What a slot pushes into its sink while it runs. */
  datatype SlotEvent =
    | Chunk(deltaText: Text, finishReason: Option<Text>, phase: Option<Text>)
    | Progress(milestone: Text, tool: Option<Text>, detail: Option<Text>)

  /** What running a request gives in the end. */
  datatype Outcome = Replied(response: InferenceResponse) | SlotError(message: Text)

  datatype ClientMessage = ClientHello(version: nat) | Inference(req: InferenceRequest) | Cancel | Shutdown

  datatype ServerMessage =
    | ServerHello(serverVersion: nat)
    | Event(event: SlotEvent)
    | InferenceComplete(response: InferenceResponse)
    | InferenceError(message: Text)
    | Goodbye
}
