/** The flat request record a client sends to create or update a service. Every field is
    optional in the JSON; a missing field decodes to its zero value, and the merge treats
    the zero value as "not supplied". Unsigned 64-bit counts are `nat`. */
module ClientSpec {

  datatype CreateSpec = CreateSpec(
    name: string,
    image: string,
    labels: map<string, string>,
    mode: string,
    replicas: nat,
    args: seq<string>,
    env: seq<string>,
    ports: seq<string>,
    network: string,
    memoryReservation: string,
    memoryLimit: string,
    cpuReservation: string,
    cpuLimit: string,
    updateParallelism: nat,
    updateDelay: string,
    restartCondition: string,
    restartDelay: string,
    restartMaxAttempts: nat,
    restartWindow: string,
    constraint: seq<string>,
    bind: seq<string>,
    volume: seq<string>)

  /** The record an empty JSON object decodes to. */
  const Absent := CreateSpec("", "", map[], "", 0, [], [], [], "", "", "", "", "", 0, "", "", "", 0, "", [], [], [])
}
