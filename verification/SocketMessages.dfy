/**
 The data words of messages to the event handler, as the Dart side of a socket makes them, and
 that the event handler reads every one of them as it was meant.
 */
module SocketMessages {
  import opened Basics
  import opened EpollProtocol

  datatype Command =
    | Close
    | ShutdownRead
    | ShutdownWrite
    | ReturnTokens(count: nat)
    | SetEventMask(read: bool, write: bool)

  /** A number of tokens must stay clear of the command bits. */
  predicate IsValid(command: Command) {
    command.ReturnTokens? ==> command.count < 0x100
  }

  /** Bit 0 stands for reading, bit 1 for writing. */
  function MaskOf(read: bool, write: bool): nat {
    (if read then 1 else 0) + (if write then 2 else 0)
  }

  /** One bit for the command, what it carries in the low byte, and a bit for a listening socket. */
  function Word(command: Command, isListening: bool): nat {
    (if isListening then 0x1_0000 else 0) +
    match command
    case Close => 0x100
    case ShutdownRead => 0x200
    case ShutdownWrite => 0x400
    case ReturnTokens(count) => 0x800 + count
    case SetEventMask(read, write) => 0x1000 + MaskOf(read, write)
  }

  lemma WordParts(command: Command, isListening: bool)
    requires IsValid(command)
    ensures var data := Word(command, isListening);
            && data / 0x100 % 0x20 == (match command
                                       case Close => 1
                                       case ShutdownRead => 2
                                       case ShutdownWrite => 4
                                       case ReturnTokens(_) => 8
                                       case SetEventMask(_, _) => 16)
            && data / 0x1_0000 % 2 == (if isListening then 1 else 0)
            && (command.ReturnTokens? ==> data % 0x100 == command.count)
            && (command.SetEventMask? ==> data % 0x20 == MaskOf(command.read, command.write))
  {
  }

  lemma Powers()
    ensures Pow2(1) == 2 && Pow2(2) == 4 && Pow2(3) == 8 && Pow2(4) == 16 && Pow2(16) == 0x1_0000
  {
    assert Pow2(4) == 16 && Pow2(8) == 0x100 && Pow2(12) == 0x1000;
  }

  /** The event handler reads the command, what it carries, and the kind of socket that were sent. */
  lemma WordIsUnderstood(command: Command, isListening: bool)
    requires IsValid(command)
    ensures var data := Word(command, isListening);
            && (IsCommand(data, CLOSE_COMMAND) <==> command.Close?)
            && (IsCommand(data, SHUTDOWN_READ_COMMAND) <==> command.ShutdownRead?)
            && (IsCommand(data, SHUTDOWN_WRITE_COMMAND) <==> command.ShutdownWrite?)
            && (IsCommand(data, RETURN_TOKEN_COMMAND) <==> command.ReturnTokens?)
            && (IsCommand(data, SET_EVENT_MASK_COMMAND) <==> command.SetEventMask?)
            && (IsListeningSocket(data) <==> isListening)
            && (command.ReturnTokens? ==> TokenCount(data) == command.count)
            && (command.SetEventMask? ==> EventBits(data) == MaskOf(command.read, command.write))
  {
    hide Word;
    WordParts(command, isListening);
    Powers();
  }
}
