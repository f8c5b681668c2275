/** One catalogue or record item of a MANSCDP message (src/core/ManscdpMessage.h). */
module ManscdpItems {
  datatype ManscdpItem = ManscdpItem(
    deviceId: string, name: string, manufacturer: string, model: string, owner: string, civilCode: string,
    parental: string, address: string, parentId: string, safetyWay: string, registerWay: string, secrecy: string,
    status: string, longitude: string, latitude: string, filePath: string, startTime: string, endTime: string)

  const NO_ITEM := ManscdpItem("", "", "", "", "", "", "", "", "", "", "", "", "", "", "", "", "", "")

  /** The item's fields in the order of the snapshot, its parental flag last. */
  function FieldsOf(item: ManscdpItem): (fields: seq<string>)
    ensures |fields| == 18
  {
    [item.deviceId, item.name, item.manufacturer, item.model, item.owner, item.civilCode, item.address,
     item.parentId, item.safetyWay, item.registerWay, item.secrecy, item.status, item.longitude, item.latitude,
     item.filePath, item.startTime, item.endTime, item.parental]
  }

  /** Older snapshots have no parental flag. */
  function ItemOf(v: seq<string>): ManscdpItem
    requires |v| == 17 || |v| == 18
  {
    ManscdpItem(v[0], v[1], v[2], v[3], v[4], v[5], if |v| == 18 then v[17] else "", v[6], v[7], v[8], v[9], v[10],
                v[11], v[12], v[13], v[14], v[15], v[16])
  }

  lemma {:induction false} ItemOfFields(item: ManscdpItem)
    ensures ItemOf(FieldsOf(item)) == item
    ensures ItemOf(FieldsOf(item)[..17]) == item.(parental := "")
  {
  }
}
