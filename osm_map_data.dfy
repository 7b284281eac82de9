/**
 * The map elements the quest logic reads: nodes, ways and relations, each with an id and
 * tags. Geometry is not modelled; it is never read by the entrance quest.
 */
module OsmMapData {

  type Tags = map<string, string>

  datatype ElementType = NodeType | WayType | RelationType

  datatype Node = Node(id: int, tags: Tags)

  /** A way lists the ids of the nodes it passes through, in order. */
  datatype Way = Way(id: int, tags: Tags, nodeIds: seq<int>)

  datatype RelationMember = RelationMember(ref: int, memberType: ElementType, role: string)

  datatype Relation = Relation(id: int, tags: Tags, members: seq<RelationMember>)

  datatype Element =
    | NodeElement(node: Node)
    | WayElement(way: Way)
    | RelationElement(relation: Relation)

  /** The downloaded map data a quest type scans. */
  datatype MapData = MapData(nodes: seq<Node>, ways: seq<Way>, relations: seq<Relation>)

  /** A filter expression, seen only through its `matches(element)`. */
  type ElementMatcher = Element -> bool

  /** A tag map that an edit changes in place. */
  class MutableTags {
    var entries: Tags

    constructor (initial: Tags)
      ensures entries == initial
    {
      entries := initial;
    }

    /** `tags[key] = value`: sets one key and leaves the others as they were. */
    method Set(key: string, value: string)
      modifies this
      ensures entries == old(entries)[key := value]
    {
      entries := entries[key := value];
    }
  }
}
