/**
 * The eight single-formula calculators: each one gates its inputs with
 * `validateNumber` and then applies one fixed formula with one fixed unit.
 */
module Converters {
  import opened Wrappers
  import opened Presentation

  /** Avogadro's number, particles per mole. */
  const Avogadro: real := 6.02214076e23
  /** The molar volume of an ideal gas at STP, litres per mole. */
  const MolarVolumeStp: real := 22.4

  /** A number with the unit label it is shown with. */
  datatype Quantity = Quantity(amount: real, unit: string)

  const MassAndMolarMassMessage := "Please enter valid positive numbers for mass and molar mass."
  const MolesMessage := "Please enter a valid positive number for moles."
  const MolesAndMolarMassMessage := "Please enter valid positive numbers for moles and molar mass."
  const ParticlesMessage := "Please enter a valid positive number for particles."
  const VolumeMessage := "Please enter a valid positive number for volume."
  const MolesAndVolumeMessage := "Please enter valid positive numbers for moles and volume."
  const MolarityAndVolumeMessage := "Please enter valid positive numbers for molarity and volume."

  /** `calculateMassToMole`: the number of moles that has the given mass. */
  function MassToMole(mass: Option<real>, molarMass: Option<real>): (r: Result<Quantity>)
    ensures r.Ok? <==> ValidateNumber(mass) && ValidateNumber(molarMass)
    ensures r.Err? ==> r.msg == MassAndMolarMassMessage
    ensures r.Ok? ==> r.value.unit == "moles" && r.value.amount > 0.0
                      && r.value.amount * molarMass.value == mass.value
  {
    if !ValidateNumber(mass) || !ValidateNumber(molarMass) then Err(MassAndMolarMassMessage)
    else Ok(Quantity(mass.value / molarMass.value, "moles"))
  }

  /** `calculateMolesToParticles`: the number of particles in the given moles. */
  function MolesToParticles(moles: Option<real>): (r: Result<Quantity>)
    ensures r.Ok? <==> ValidateNumber(moles)
    ensures r.Err? ==> r.msg == MolesMessage
    ensures r.Ok? ==> r.value.unit == "particles" && r.value.amount > 0.0
                      && r.value.amount / Avogadro == moles.value
  {
    if !ValidateNumber(moles) then Err(MolesMessage)
    else Ok(Quantity(moles.value * Avogadro, "particles"))
  }

  /** `calculateMolesToMass`: the mass, in grams, of the given moles. */
  function MolesToMass(moles: Option<real>, molarMass: Option<real>): (r: Result<Quantity>)
    ensures r.Ok? <==> ValidateNumber(moles) && ValidateNumber(molarMass)
    ensures r.Err? ==> r.msg == MolesAndMolarMassMessage
    ensures r.Ok? ==> r.value.unit == "grams" && r.value.amount > 0.0
                      && r.value.amount / molarMass.value == moles.value
  {
    if !ValidateNumber(moles) || !ValidateNumber(molarMass) then Err(MolesAndMolarMassMessage)
    else Ok(Quantity(moles.value * molarMass.value, "grams"))
  }

  /** `calculateParticlesToMoles`: the moles that hold the given number of particles. */
  function ParticlesToMoles(particles: Option<real>): (r: Result<Quantity>)
    ensures r.Ok? <==> ValidateNumber(particles)
    ensures r.Err? ==> r.msg == ParticlesMessage
    ensures r.Ok? ==> r.value.unit == "moles" && r.value.amount > 0.0
                      && r.value.amount * Avogadro == particles.value
  {
    if !ValidateNumber(particles) then Err(ParticlesMessage)
    else Ok(Quantity(particles.value / Avogadro, "moles"))
  }

  /** `calculateMolesToVolume`: the volume of the given moles of gas at STP. */
  function MolesToVolume(moles: Option<real>): (r: Result<Quantity>)
    ensures r.Ok? <==> ValidateNumber(moles)
    ensures r.Err? ==> r.msg == MolesMessage
    ensures r.Ok? ==> r.value.unit == "liters (at STP)" && r.value.amount > 0.0
                      && r.value.amount / MolarVolumeStp == moles.value
  {
    if !ValidateNumber(moles) then Err(MolesMessage)
    else Ok(Quantity(moles.value * MolarVolumeStp, "liters (at STP)"))
  }

  /** `calculateVolumeToMoles`: the moles of gas that fill the given volume at STP. */
  function VolumeToMoles(volume: Option<real>): (r: Result<Quantity>)
    ensures r.Ok? <==> ValidateNumber(volume)
    ensures r.Err? ==> r.msg == VolumeMessage
    ensures r.Ok? ==> r.value.unit == "moles (at STP)" && r.value.amount > 0.0
                      && r.value.amount * MolarVolumeStp == volume.value
  {
    if !ValidateNumber(volume) then Err(VolumeMessage)
    else Ok(Quantity(volume.value / MolarVolumeStp, "moles (at STP)"))
  }

  /** `calculateMolesToMolarity`: the concentration of the given moles in the given volume. */
  function MolesToMolarity(moles: Option<real>, volume: Option<real>): (r: Result<Quantity>)
    ensures r.Ok? <==> ValidateNumber(moles) && ValidateNumber(volume)
    ensures r.Err? ==> r.msg == MolesAndVolumeMessage
    ensures r.Ok? ==> r.value.unit == "M" && r.value.amount > 0.0
                      && r.value.amount * volume.value == moles.value
  {
    if !ValidateNumber(moles) || !ValidateNumber(volume) then Err(MolesAndVolumeMessage)
    else Ok(Quantity(moles.value / volume.value, "M"))
  }

  /** `calculateMolarityToMoles`: the moles in the given volume at the given concentration. */
  function MolarityToMoles(molarity: Option<real>, volume: Option<real>): (r: Result<Quantity>)
    ensures r.Ok? <==> ValidateNumber(molarity) && ValidateNumber(volume)
    ensures r.Err? ==> r.msg == MolarityAndVolumeMessage
    ensures r.Ok? ==> r.value.unit == "moles" && r.value.amount > 0.0
                      && r.value.amount / volume.value == molarity.value
  {
    if !ValidateNumber(molarity) || !ValidateNumber(volume) then Err(MolarityAndVolumeMessage)
    else Ok(Quantity(molarity.value * volume.value, "moles"))
  }

  /** moles -> particles -> moles gives back the moles. */
  lemma MolesParticlesRoundTrip(moles: real)
    requires moles > 0.0
    ensures ParticlesToMoles(Some(MolesToParticles(Some(moles)).value.amount)) == Ok(Quantity(moles, "moles"))
  {
  }

  /** particles -> moles -> particles gives back the particles. */
  lemma ParticlesMolesRoundTrip(particles: real)
    requires particles > 0.0
    ensures MolesToParticles(Some(ParticlesToMoles(Some(particles)).value.amount)) == Ok(Quantity(particles, "particles"))
  {
  }

  /** moles -> mass -> moles, at the same molar mass, gives back the moles. */
  lemma MolesMassRoundTrip(moles: real, molarMass: real)
    requires moles > 0.0 && molarMass > 0.0
    ensures MassToMole(Some(MolesToMass(Some(moles), Some(molarMass)).value.amount), Some(molarMass))
            == Ok(Quantity(moles, "moles"))
  {
  }

  /** mass -> moles -> mass, at the same molar mass, gives back the mass. */
  lemma MassMolesRoundTrip(mass: real, molarMass: real)
    requires mass > 0.0 && molarMass > 0.0
    ensures MolesToMass(Some(MassToMole(Some(mass), Some(molarMass)).value.amount), Some(molarMass))
            == Ok(Quantity(mass, "grams"))
  {
  }

  /** moles -> volume at STP -> moles gives back the moles. */
  lemma MolesVolumeRoundTrip(moles: real)
    requires moles > 0.0
    ensures VolumeToMoles(Some(MolesToVolume(Some(moles)).value.amount)) == Ok(Quantity(moles, "moles (at STP)"))
  {
  }

  /** volume at STP -> moles -> volume gives back the volume. */
  lemma VolumeMolesRoundTrip(volume: real)
    requires volume > 0.0
    ensures MolesToVolume(Some(VolumeToMoles(Some(volume)).value.amount)) == Ok(Quantity(volume, "liters (at STP)"))
  {
  }

  /** moles -> molarity -> moles, in the same volume, gives back the moles. */
  lemma MolesMolarityRoundTrip(moles: real, volume: real)
    requires moles > 0.0 && volume > 0.0
    ensures MolarityToMoles(Some(MolesToMolarity(Some(moles), Some(volume)).value.amount), Some(volume))
            == Ok(Quantity(moles, "moles"))
  {
  }

  /** molarity -> moles -> molarity, in the same volume, gives back the molarity. */
  lemma MolarityMolesRoundTrip(molarity: real, volume: real)
    requires molarity > 0.0 && volume > 0.0
    ensures MolesToMolarity(Some(MolarityToMoles(Some(molarity), Some(volume)).value.amount), Some(volume))
            == Ok(Quantity(molarity, "M"))
  {
  }
}
