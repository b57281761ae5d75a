/** The cost classes of network flows. */
module Traffic {
  datatype TrafficType =
    | Unknown
    | SameZone
    | CrossAZ
    | CrossRegion
    | InternetEgress
    | NATGatewayEgress
    | VPCPeering
    | TransitGateway
    | VPCEndpoint
    | CloudServicePublic
    | IntraNode
    | ServiceMeshInternal
}
