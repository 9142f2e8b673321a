/** The state behind the mutex of an ordered channel and its critical sections (src/sync.rs). */
module ChannelState {
  import opened Wire

  datatype SharedState = SharedState(wanted: Option<nat>, closed: bool, receiving: bool)

  datatype SendOutcome = Refused | Placed | MustWait

  /** What one pass of the loop in `send` does under the lock. */
  function SendOutcomeOf(st: SharedState, idx: nat): SendOutcome {
    if st.closed then Refused else if st.wanted == Some(idx) then Placed else MustWait
  }

  /** The critical section at the start of `recv`, when no receive is outstanding. */
  function WantNext(st: SharedState): SharedState {
    SharedState(Some(match st.wanted case None => 0 case Some(i) => i + 1), st.closed, true)
  }

  /** `wanted_idx` and `receiving` determine how many values have been received. */
  function CountOf(st: SharedState): nat {
    match st.wanted
    case None => 0
    case Some(i) => if st.receiving then i else i + 1
  }
}
