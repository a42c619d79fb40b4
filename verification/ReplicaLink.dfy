/** Frames and acknowledgements exchanged over the replica link. */
module ReplicaLink {
  import opened Options

  type SocketId = string

  datatype Role = App | Updater

  datatype StepInfo = StepInfo(step: string, name: string)

  /** One progress frame; the constructors are the four phases. */
  datatype Frame =
    | StepStart(runId: string, step: Option<string>)
    | StepOutput(runId: string, step: Option<string>, output: string)
    | StepComplete(runId: string, step: Option<string>, failed: bool, error: Option<string>)
    | Finished(runId: string, ok: bool, restarting: bool, error: Option<string>)

  datatype Ack = Ack(accepted: bool, reason: Option<string>, steps: seq<StepInfo>)

  datatype LinkInfo = LinkInfo(id: SocketId, ip: string, deviceName: string, role: Role)

  /** `ack` is None when the replica never answered; `error` then says why. */
  datatype DispatchResult = DispatchResult(replica: LinkInfo, ack: Option<Ack>, error: Option<string>)

  predicate DistinctSockets(infos: seq<LinkInfo>) {
    forall i, j :: 0 <= i < j < |infos| ==> infos[i].id != infos[j].id
  }
}
