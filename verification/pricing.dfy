/** The money a tenancy contract asks for, fixed when an administrator
    deposits or rents a room on a tenant's behalf.

    Money is `real`; the JavaScript floating point and the `toFixed(2)`
    formatting of bills are not modelled.
 */
module Pricing {

  datatype ContractPrice = ContractPrice(
    price: real,             // monthly room price
    bail: real,              // security deposit held for the contract
    deposit: real,           // paid when the room is reserved
    afterCheckInCost: real,  // paid when the tenant moves in
    total: real)

  /** Prices a contract from the room's `price` and `depositPrice`. A room
      whose `depositPrice` is zero asks one month's price as bail. */
  function PriceContract(price: real, depositPrice: real): (c: ContractPrice)
    ensures c.price == price
    ensures depositPrice == 0.0 ==> c.bail == price
    ensures depositPrice != 0.0 ==> c.bail == depositPrice
    ensures c.deposit + c.afterCheckInCost == c.total
    ensures c.total == price + c.bail
    ensures c.deposit * 2.0 == price
    ensures c.afterCheckInCost == c.deposit + c.bail
  {
    var bail := if depositPrice == 0.0 then price else depositPrice;
    ContractPrice(price, bail, price / 2.0, price * 0.5 + bail, price + bail)
  }
}
