/** Which broadcast domain a process joins, decided once from its launch
    arguments (the DocumentHandler constructor), and the bus interface name
    derived from it. */
module Session {

  /** The session name that means "edit locally, never join the bus". */
  const Detached: string := "detached"

  /** The session every otherwise unconfigured instance joins. */
  const DefaultSession: string := "allusers"

  const DetachedFlag: string := "--detached"
  const ChannelFlag: string := "--channel"

  /** Prefix of the interface (and service) name every bus signal carries. */
  const ServicePrefix: string := "org.example."

  /** The argument list selects private mode: exactly one argument after the
      program name, and it is the detached flag. */
  predicate AsksDetached(args: seq<string>) {
    |args| == 2 && args[1] == DetachedFlag
  }

  /** The argument list names a channel: the channel flag right after the
      program name, followed by at least one more token. */
  predicate NamesChannel(args: seq<string>) {
    |args| > 2 && args[1] == ChannelFlag
  }

  /** The session name of a process started with `args` (args[0] is the
      program itself). Malformed lists fall through to the default. */
  function ResolveSession(args: seq<string>): (session: string)
    ensures AsksDetached(args) ==> session == Detached
    ensures NamesChannel(args) ==> session == args[2]
    ensures !AsksDetached(args) && !NamesChannel(args) ==> session == DefaultSession
  {
    if AsksDetached(args) then Detached
    else if NamesChannel(args) then args[2]
    else DefaultSession
  }

  /** The session is detached exactly when private mode was asked for, or
      when the channel explicitly named is itself "detached". */
  lemma DetachedExactly(args: seq<string>)
    ensures ResolveSession(args) == Detached
            <==> AsksDetached(args) || (NamesChannel(args) && args[2] == Detached)
  {
  }

  /** The default is taken by every list that matches neither rule, among
      them a dangling channel flag and a detached flag with extra tokens. */
  lemma MalformedListsGetDefault(program: string, extra: string)
    ensures ResolveSession([program, ChannelFlag]) == DefaultSession
    ensures ResolveSession([program, DetachedFlag, extra]) == DefaultSession
    ensures ResolveSession([program]) == DefaultSession
  {
  }

  /** The bus interface name of a session. */
  function ChannelOf(session: string): (channel: string)
    ensures |channel| == |ServicePrefix| + |session|
    ensures channel[..|ServicePrefix|] == ServicePrefix
    ensures channel[|ServicePrefix|..] == session
  {
    ServicePrefix + session
  }

  /** Distinct sessions never share an interface name. */
  lemma ChannelOfInjective(x: string, y: string)
    ensures ChannelOf(x) == ChannelOf(y) <==> x == y
  {
  }
}
