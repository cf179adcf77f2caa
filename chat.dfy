/**
 * The vocabulary shared by every persona script: chat roles, video frames,
 * chat turns, the mutable chat message object, and the speech actions the
 * session hands to the voice assistant.
 */
module Chat {

  /** `MAX_IMAGES`: the backlog length at which the oldest image is dropped. */
  const MAX_IMAGES: nat := 3

  datatype Role = System | User | Assistant

  /** A decoded video frame, known to the model only by an identity. */
  datatype Frame = Frame(id: nat)

  /** `ChatImage(image=frame)`: an image attachment of a chat message. */
  datatype ChatImage = ChatImage(image: Frame)

  /** The value of one chat message at a given moment. */
  datatype Turn = Turn(role: Role, text: string, images: seq<ChatImage>)

  /**
   * Whether `assistant.say` was asked to allow interruptions
   * (`allow_interruptions=True`) or left to the assistant's default.
   */
  datatype Interruptions = DefaultPolicy | Allowed

  /**
   * What is spoken: a literal string, or the reply the language model
   * streams back when `gpt.chat` is called on `prompt`.
   */
  datatype Utterance = Literal(text: string) | ModelReply(prompt: seq<Turn>)

  /** One call of `assistant.say`. */
  datatype Action = Say(what: Utterance, interruptions: Interruptions)

  /**
   * `agents.llm.ChatMessage`: a message object that the chat history and the
   * image backlog share by reference, so clearing `images` through one is
   * seen through the other.
   */
  class ChatMessage {
    var role: Role
    var text: string
    var images: seq<ChatImage>

    constructor (role: Role, text: string, images: seq<ChatImage>)
      ensures View() == Turn(role, text, images)
    {
      this.role := role;
      this.text := text;
      this.images := images;
    }

    function View(): Turn
      reads this
    {
      Turn(role, text, images)
    }
  }
}
